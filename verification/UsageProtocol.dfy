/** Any number of record_usage transactions, interleaved statement by statement under READ COMMITTED
    with unique indexes and row locks, each able to be rolled back at any point
    (apps/usage/service.py:29-63). */
module UsageProtocol {
  import opened Common
  import opened Usage

  /** The statement a transaction executes next. Commit carries the daily row it has written but not
      yet published, and with it the lock on that row's key. */
  datatype Pc =
    | InsertEvent
    | GetDaily
    | InsertDaily
    | GetAgain
    | UpdateDaily
    | Commit(row: Option<DailyRow>)
    | Done(outcome: Outcome)
    | RolledBack

  datatype Tx = Tx(record: UsageRecord, pc: Pc)

  /** finished lists the transactions that returned or raised, in that order. */
  datatype System = System(committed: Db, txs: seq<Tx>, finished: seq<nat>)

  datatype Action = Advance(i: nat) | Rollback(i: nat)

  // ---------- the steps ----------

  /** The transaction has inserted its event and neither committed nor rolled back. */
  predicate HoldsEvent(t: Tx) {
    t.pc.GetDaily? || t.pc.InsertDaily? || t.pc.GetAgain? || t.pc.UpdateDaily? || t.pc.Commit?
  }

  predicate HoldsDaily(t: Tx) { t.pc.Commit? && t.pc.row.Some? }

  predicate Finished(t: Tx) { t.pc.Done? || t.pc.RolledBack? }

  predicate EventHeld(s: System, id: string) {
    exists j :: 0 <= j < |s.txs| && HoldsEvent(s.txs[j]) && s.txs[j].record.requestId == id
  }

  predicate DailyHeld(s: System, k: UsageKey) {
    exists j :: 0 <= j < |s.txs| && HoldsDaily(s.txs[j]) && Key(s.txs[j].record) == k
  }

  function Goto(s: System, i: nat, pc: Pc): System
    requires i < |s.txs|
  {
    s.(txs := s.txs[i := s.txs[i].(pc := pc)])
  }

  function Finish(s: System, i: nat, outcome: Outcome): System
    requires i < |s.txs|
  {
    Goto(s, i, Done(outcome)).(finished := s.finished + [i])
  }

  /** The next statement of transaction i; None while it waits for another transaction. */
  function Advanced(s: System, i: nat): Option<System>
    requires i < |s.txs|
  {
    var r, k := s.txs[i].record, Key(s.txs[i].record);
    match s.txs[i].pc
    case InsertEvent =>
      if CheckRow(r) == OutOfRange then Some(Finish(s, i, Failed))
      else if CheckRow(r) == Violates || r.requestId in s.committed.events then Some(Finish(s, i, Ignored))
      else if EventHeld(s, r.requestId) then None
      else Some(Goto(s, i, GetDaily))
    case GetDaily =>
      Some(Goto(s, i, if k in s.committed.daily then UpdateDaily else InsertDaily))
    case InsertDaily =>
      if k in s.committed.daily then Some(Goto(s, i, GetAgain))
      else if DailyHeld(s, k) then None
      else Some(Goto(s, i, Commit(Some(DailyRow(r.tokens, 1)))))
    case GetAgain =>
      Some(if k in s.committed.daily then Goto(s, i, UpdateDaily) else Finish(s, i, Failed))
    case UpdateDaily =>
      if DailyHeld(s, k) then None
      else if k !in s.committed.daily then Some(Goto(s, i, Commit(None)))
      else
        var row := DailyRow(s.committed.daily[k].tokens + r.tokens, s.committed.daily[k].requests + 1);
        Some(if RowInRange(row) then Goto(s, i, Commit(Some(row))) else Finish(s, i, Failed))
    case Commit(row) =>
      var daily := if row.Some? then s.committed.daily[k := row.value] else s.committed.daily;
      Some(Finish(s, i, Recorded).(committed := Db(s.committed.events[r.requestId := r], daily)))
    case _ => None
  }

  function Step(s: System, a: Action): System {
    if a.i >= |s.txs| then s
    else match a
      case Advance(i) => (match Advanced(s, i) case None => s case Some(next) => next)
      case Rollback(i) => if Finished(s.txs[i]) then s else Goto(s, i, RolledBack)
  }

  function Run(s: System, acts: seq<Action>): System
    decreases |acts|
  {
    if acts == [] then s else Run(Step(s, acts[0]), acts[1..])
  }

  // ---------- safety ----------

  /** What a transaction past its event insert may rely on. */
  ghost predicate TxInv(db: Db, t: Tx) {
    && (HoldsEvent(t) ==> CheckRow(t.record) == Fits && t.record.requestId !in db.events)
    && (t.pc.GetAgain? || t.pc.UpdateDaily? ==> Key(t.record) in db.daily)
    && (t.pc.Commit? ==> t.pc.row == Some(Bumped(db.daily, t.record)) && RowInRange(t.pc.row.value))
    && (t.pc == Done(Recorded) ==> t.record.requestId in db.events && db.events[t.record.requestId] == t.record)
  }

  /** Two transactions never hold the same key. */
  ghost predicate Exclusive(t: Tx, u: Tx) {
    && !(HoldsEvent(t) && HoldsEvent(u) && t.record.requestId == u.record.requestId)
    && !(HoldsDaily(t) && HoldsDaily(u) && Key(t.record) == Key(u.record))
  }

  ghost predicate Inv(s: System) {
    && Agrees(s.committed)
    && (forall i :: 0 <= i < |s.txs| ==> TxInv(s.committed, s.txs[i]))
    && (forall i, j :: 0 <= i < j < |s.txs| ==> Exclusive(s.txs[i], s.txs[j]))
  }

  /** A group of calls about to start on tables whose aggregate is right. */
  ghost predicate Start(s: System) {
    && Agrees(s.committed) && s.finished == []
    && forall i :: 0 <= i < |s.txs| ==> s.txs[i].pc == InsertEvent
  }

  /** Publishing one transaction disturbs no other: the others hold different keys. */
  lemma CommitKeepsOthers(db: Db, t: Tx, u: Tx)
    requires TxInv(db, t) && TxInv(db, u) && t.pc.Commit? && Exclusive(t, u)
    ensures TxInv(Record(db, t.record).0, u)
  {
  }

  /** The heart of the protocol: a step that publishes or ends a call has exactly the effect and the answer
      of an undisturbed call made at that instant; every other step leaves the tables alone. */
  lemma StepIsAtomic(s: System, i: nat)
    requires Inv(s) && i < |s.txs| && Advanced(s, i).Some?
    ensures var n := Advanced(s, i).value;
            && |n.txs| == |s.txs| && n.txs[i].record == s.txs[i].record
            && (forall j :: 0 <= j < |s.txs| && j != i ==> n.txs[j] == s.txs[j])
            && if n.txs[i].pc.Done?
               then (n.committed, n.txs[i].pc.outcome) == Record(s.committed, s.txs[i].record)
                    && n.finished == s.finished + [i]
               else n.committed == s.committed && n.finished == s.finished && !Finished(n.txs[i])
  {
  }

  lemma StepKeepsTables(s: System, i: nat)
    requires Inv(s) && i < |s.txs| && Advanced(s, i).Some?
    ensures var n := Advanced(s, i).value;
            Agrees(n.committed) && forall j :: 0 <= j < |n.txs| ==> TxInv(n.committed, n.txs[j])
  {
    var n := Advanced(s, i).value;
    StepIsAtomic(s, i);
    StepKeepsMover(s, i);
    if n.committed != s.committed {
      RecordKeepsAgreement(s.committed, s.txs[i].record);
      forall j | 0 <= j < |s.txs| && j != i ensures TxInv(n.committed, n.txs[j]) {
        assert Exclusive(s.txs[i], s.txs[j]) || Exclusive(s.txs[j], s.txs[i]);
        CommitKeepsOthers(s.committed, s.txs[i], s.txs[j]);
      }
    }
  }

  lemma StepKeepsMover(s: System, i: nat)
    requires Agrees(s.committed) && i < |s.txs| && TxInv(s.committed, s.txs[i]) && Advanced(s, i).Some?
    ensures TxInv(Advanced(s, i).value.committed, Advanced(s, i).value.txs[i])
    ensures Advanced(s, i).value.committed != s.committed ==> s.txs[i].pc.Commit?
  {
    match s.txs[i].pc
    case InsertEvent =>
    case GetDaily =>
    case InsertDaily =>
    case GetAgain =>
    case UpdateDaily =>
    case Commit(_) =>
    case _ =>
  }

  lemma StepKeepsExclusion(s: System, a: Action)
    requires Inv(s) && a.i < |s.txs|
    ensures var n := Step(s, a);
            |n.txs| == |s.txs| && forall i, j :: 0 <= i < j < |n.txs| ==> Exclusive(n.txs[i], n.txs[j])
  {
    var n := Step(s, a);
    OthersKeep(s, a);
    forall j | 0 <= j < |s.txs| && j != a.i ensures Exclusive(n.txs[a.i], n.txs[j]) && Exclusive(n.txs[j], n.txs[a.i]) {
      NewHolderIsAlone(s, a, j);
    }
  }

  lemma OthersKeep(s: System, a: Action)
    requires a.i < |s.txs|
    ensures |Step(s, a).txs| == |s.txs|
    ensures forall j :: 0 <= j < |s.txs| && j != a.i ==> Step(s, a).txs[j] == s.txs[j]
  {
  }

  lemma StepKeepsInv(s: System, a: Action)
    requires Inv(s)
    ensures Inv(Step(s, a)) && |Step(s, a).txs| == |s.txs|
  {
    if a.i < |s.txs| {
      StepKeepsExclusion(s, a);
      if a.Advance? && Advanced(s, a.i).Some? { StepKeepsTables(s, a.i); }
    }
  }

  /** A request identifier is taken only while nobody holds it. */
  lemma EventTakenWhenFree(s: System, a: Action)
    requires a.i < |s.txs|
    ensures var t, u := s.txs[a.i], Step(s, a).txs[a.i];
            u.record == t.record && (HoldsEvent(u) ==> HoldsEvent(t) || !EventHeld(s, t.record.requestId))
  {
    match s.txs[a.i].pc
    case InsertEvent =>
    case GetDaily =>
    case InsertDaily =>
    case GetAgain =>
    case UpdateDaily =>
    case Commit(_) =>
    case _ =>
  }

  /** A daily key is taken only while nobody holds it. */
  lemma DailyTakenWhenFree(s: System, a: Action)
    requires a.i < |s.txs|
    ensures var t, u := s.txs[a.i], Step(s, a).txs[a.i];
            u.record == t.record && (HoldsDaily(u) ==> HoldsDaily(t) || !DailyHeld(s, Key(t.record)))
  {
    match s.txs[a.i].pc
    case InsertEvent =>
    case GetDaily =>
    case InsertDaily =>
    case GetAgain =>
    case UpdateDaily =>
    case Commit(_) =>
    case _ =>
  }

  /** Whoever takes a key is its only holder. */
  lemma NewHolderIsAlone(s: System, a: Action, j: nat)
    requires Inv(s) && a.i < |s.txs| && j < |s.txs| && j != a.i
    ensures Exclusive(Step(s, a).txs[a.i], s.txs[j]) && Exclusive(s.txs[j], Step(s, a).txs[a.i])
  {
    var t, u := s.txs[a.i], s.txs[j];
    EventTakenWhenFree(s, a);
    DailyTakenWhenFree(s, a);
    assert if a.i < j then Exclusive(t, u) else Exclusive(u, t);
    assert HoldsEvent(u) ==> EventHeld(s, u.record.requestId);
    assert HoldsDaily(u) ==> DailyHeld(s, Key(u.record));
  }

  lemma {:induction false} RunKeepsInv(s: System, acts: seq<Action>)
    requires Inv(s)
    ensures Inv(Run(s, acts)) && |Run(s, acts).txs| == |s.txs|
    decreases |acts|
  {
    if acts == [] {
    } else {
      StepKeepsInv(s, acts[0]);
      RunKeepsInv(Step(s, acts[0]), acts[1..]);
    }
  }

  /** In every reachable state, whatever the interleaving and wherever it was cut, the committed aggregate
      is the recount of the committed events. */
  lemma AggregateAlwaysAgrees(s: System, acts: seq<Action>)
    requires Start(s)
    ensures Agrees(Run(s, acts).committed)
  {
    RunKeepsInv(s, acts);
  }

  // ---------- the protocol refines undisturbed calls ----------

  /** The calls named by order, made one after the other with nothing in between. */
  function Serial(db: Db, txs: seq<Tx>, order: seq<nat>): Db
    decreases |order|
  {
    if order == [] then db
    else
      var before := Serial(db, txs, order[..|order| - 1]);
      var last := order[|order| - 1];
      if last < |txs| then Record(before, txs[last].record).0 else before
  }

  /** The answer call number n of the serial execution gives. */
  function SerialOutcome(db: Db, txs: seq<Tx>, order: seq<nat>, n: nat): Outcome
    requires n < |order| && order[n] < |txs|
  {
    Record(Serial(db, txs, order[..n]), txs[order[n]].record).1
  }

  /** Each finished call is listed once, and only finished calls are listed. */
  ghost predicate Listed(s: System) {
    && (forall i :: 0 <= i < |s.txs| ==> (s.txs[i].pc.Done? <==> i in s.finished))
    && (forall n :: 0 <= n < |s.finished| ==> s.finished[n] < |s.txs|)
    && (forall n, m :: 0 <= n < m < |s.finished| ==> s.finished[n] != s.finished[m])
  }

  ghost predicate SameCalls(s0: System, s: System) {
    |s.txs| == |s0.txs| && forall i :: 0 <= i < |s.txs| ==> s.txs[i].record == s0.txs[i].record
  }

  /** The answers are those of the serial execution. */
  ghost predicate SerialAnswers(s0: System, s: System)
    requires SameCalls(s0, s) && Listed(s)
  {
    forall n :: 0 <= n < |s.finished| ==>
      s.txs[s.finished[n]].pc == Done(SerialOutcome(s0.committed, s0.txs, s.finished, n))
  }

  ghost predicate Linearized(s0: System, s: System) {
    && SameCalls(s0, s) && Listed(s)
    && s.committed == Serial(s0.committed, s0.txs, s.finished)
    && SerialAnswers(s0, s)
  }

  lemma StepKeepsLinearized(s0: System, s: System, a: Action)
    requires Inv(s) && Linearized(s0, s)
    ensures Linearized(s0, Step(s, a))
  {
    var n := Step(s, a);
    if a.i < |s.txs| && n != s {
      if a.Advance? {
        StepIsAtomic(s, a.i);
        if n.txs[a.i].pc.Done? {
          FinishIsListed(s, n, a.i);
          FinishAnswersSerially(s0, s, n, a.i);
        } else {
          PauseKeepsLinearized(s0, s, n, a.i);
        }
      } else {
        PauseKeepsLinearized(s0, s, n, a.i);
      }
    }
  }

  /** n differs from s in the control state of call i at most. */
  ghost predicate Only(s: System, n: System, i: nat) {
    && SameCalls(s, n) && i < |s.txs| && !s.txs[i].pc.Done?
    && forall j :: 0 <= j < |s.txs| && j != i ==> n.txs[j] == s.txs[j]
  }

  lemma PauseKeepsLinearized(s0: System, s: System, n: System, i: nat)
    requires Linearized(s0, s) && Only(s, n, i) && !n.txs[i].pc.Done?
    requires n.committed == s.committed && n.finished == s.finished
    ensures Linearized(s0, n)
  {
  }

  lemma FinishIsListed(s: System, n: System, i: nat)
    requires Listed(s) && Only(s, n, i) && n.txs[i].pc.Done? && n.finished == s.finished + [i]
    ensures Listed(n)
  {
  }

  lemma SerialOutcomePrefix(db: Db, txs: seq<Tx>, order: seq<nat>, i: nat, m: nat)
    requires m < |order| && order[m] < |txs|
    ensures SerialOutcome(db, txs, order + [i], m) == SerialOutcome(db, txs, order, m)
  {
    assert (order + [i])[..m] == order[..m];
  }

  lemma EarlierAnswers(s0: System, s: System, n: System, i: nat, m: nat)
    requires Linearized(s0, s) && Only(s, n, i) && n.finished == s.finished + [i] && m < |s.finished|
    ensures n.finished[m] < |s0.txs|
    ensures n.txs[n.finished[m]].pc == Done(SerialOutcome(s0.committed, s0.txs, n.finished, m))
  {
    assert s.finished[m] in s.finished && s.finished[m] != i;
    SerialOutcomePrefix(s0.committed, s0.txs, s.finished, i, m);
  }

  lemma LastAnswer(s0: System, s: System, n: System, i: nat)
    requires Linearized(s0, s) && Only(s, n, i) && n.finished == s.finished + [i] && n.txs[i].pc.Done?
    requires n.txs[i].pc.outcome == Record(s.committed, s.txs[i].record).1
    ensures i < |s0.txs| && n.txs[i].pc == Done(SerialOutcome(s0.committed, s0.txs, n.finished, |s.finished|))
  {
    assert n.finished[..|s.finished|] == s.finished;
  }

  lemma AllAnswersSerial(s0: System, s: System, n: System, i: nat)
    requires Linearized(s0, s) && Only(s, n, i) && Listed(n) && n.finished == s.finished + [i] && n.txs[i].pc.Done?
    requires n.txs[i].pc.outcome == Record(s.committed, s.txs[i].record).1
    ensures SameCalls(s0, n) && SerialAnswers(s0, n)
  {
    LastAnswer(s0, s, n, i);
    forall m | 0 <= m < |n.finished|
      ensures n.txs[n.finished[m]].pc == Done(SerialOutcome(s0.committed, s0.txs, n.finished, m))
    {
      if m < |s.finished| { EarlierAnswers(s0, s, n, i, m); }
    }
  }

  lemma FinishAnswersSerially(s0: System, s: System, n: System, i: nat)
    requires Linearized(s0, s) && Only(s, n, i) && Listed(n) && n.txs[i].pc.Done?
    requires n.finished == s.finished + [i]
    requires (n.committed, n.txs[i].pc.outcome) == Record(s.committed, s.txs[i].record)
    ensures Linearized(s0, n)
  {
    AllAnswersSerial(s0, s, n, i);
    SerialExtends(s0.committed, s0.txs, s.finished, i);
  }

  lemma SerialExtends(db: Db, txs: seq<Tx>, order: seq<nat>, i: nat)
    requires i < |txs|
    ensures Serial(db, txs, order + [i]) == Record(Serial(db, txs, order), txs[i].record).0
  {
  }

  lemma {:induction false} RunKeepsLinearized(s0: System, s: System, acts: seq<Action>)
    requires Inv(s) && Linearized(s0, s)
    ensures Linearized(s0, Run(s, acts))
    decreases |acts|
  {
    if acts == [] {
    } else {
      StepKeepsInv(s, acts[0]);
      StepKeepsLinearized(s0, s, acts[0]);
      RunKeepsLinearized(s0, Step(s, acts[0]), acts[1..]);
    }
  }

  /** Serializability: any run has the tables and the answers of the undisturbed calls made one by one in
      the order in which the transactions finished; a rolled-back transaction leaves no trace at all. */
  lemma RunsAreSerializable(s: System, acts: seq<Action>)
    requires Start(s)
    ensures Linearized(s, Run(s, acts))
  {
    RunKeepsLinearized(s, s, acts);
  }

  /** In a serial execution a request once recorded stays as recorded and is never recorded again. */
  lemma {:induction false} SerialRecordsOnce(db: Db, txs: seq<Tx>, order: seq<nat>, n: nat)
    requires n < |order| && forall m :: 0 <= m < |order| ==> order[m] < |txs|
    requires SerialOutcome(db, txs, order, n) == Recorded
    ensures var id := txs[order[n]].record.requestId;
            && id in Serial(db, txs, order).events
            && Serial(db, txs, order).events[id] == txs[order[n]].record
            && (forall m :: n < m < |order| && txs[order[m]].record.requestId == id ==>
                  SerialOutcome(db, txs, order, m) != Recorded)
    decreases |order|
  {
    var front := order[..|order| - 1];
    if n == |front| {
      assert front == order[..n];
    } else {
      assert front[..n] == order[..n];
      SerialRecordsOnce(db, txs, front, n);
      forall m | n < m < |order| && txs[order[m]].record.requestId == txs[order[n]].record.requestId
        ensures SerialOutcome(db, txs, order, m) != Recorded
      {
        if m < |front| { assert front[..m] == order[..m] && front[m] == order[m]; }
      }
    }
  }

  /** Exactly once: of all calls carrying one request identifier at most one answers True, and the event
      table then holds that call's record. */
  lemma ExactlyOnce(s: System, acts: seq<Action>, i: nat, j: nat)
    requires Start(s) && i < j < |s.txs| && s.txs[i].record.requestId == s.txs[j].record.requestId
    ensures var n := Run(s, acts);
            && |n.txs| == |s.txs|
            && !(n.txs[i].pc == Done(Recorded) && n.txs[j].pc == Done(Recorded))
            && (n.txs[i].pc == Done(Recorded) ==>
                  n.txs[i].record.requestId in n.committed.events
                  && n.committed.events[n.txs[i].record.requestId] == s.txs[i].record)
  {
    var n := Run(s, acts);
    RunsAreSerializable(s, acts);
    RunKeepsInv(s, acts);
    assert TxInv(n.committed, n.txs[i]);
    if n.txs[i].pc == Done(Recorded) && n.txs[j].pc == Done(Recorded) { NotBothRecorded(s, n, i, j); }
  }

  lemma NotBothRecorded(s0: System, s: System, i: nat, j: nat)
    requires Linearized(s0, s) && i < j < |s.txs| && s.txs[i].record.requestId == s.txs[j].record.requestId
    requires s.txs[i].pc == Done(Recorded)
    ensures s.txs[j].pc != Done(Recorded)
  {
    if s.txs[j].pc == Done(Recorded) {
      var p :| 0 <= p < |s.finished| && s.finished[p] == i;
      var q :| 0 <= q < |s.finished| && s.finished[q] == j;
      if p < q { RecordedTwice(s0, s, p, q); } else { RecordedTwice(s0, s, q, p); }
    }
  }

  lemma RecordedTwice(s0: System, s: System, p: nat, q: nat)
    requires Linearized(s0, s) && p < q < |s.finished|
    requires s.txs[s.finished[p]].record.requestId == s.txs[s.finished[q]].record.requestId
    ensures !(s.txs[s.finished[p]].pc == Done(Recorded) && s.txs[s.finished[q]].pc == Done(Recorded))
  {
    if s.txs[s.finished[p]].pc == Done(Recorded) {
      SerialRecordsOnce(s0.committed, s0.txs, s.finished, p);
    }
  }

  // ---------- progress ----------

  function Remaining(t: Tx): int {
    match t.pc
    case InsertEvent => 6
    case GetDaily => 5
    case InsertDaily => 4
    case GetAgain => 3
    case UpdateDaily => 2
    case Commit(_) => 1
    case _ => 0
  }

  ghost function Measure(s: System): int { Sum(s.txs, Remaining) }

  /** No deadlock: as long as one transaction is unfinished, some transaction can execute a statement.
      A waiting transaction waits for the holder of its request identifier or of its daily key; a holder of
      a request identifier waits only for a daily key, and a holder of a daily key waits for nothing. */
  lemma NoDeadlock(s: System, i: nat) returns (runner: nat)
    requires Inv(s) && i < |s.txs| && !Finished(s.txs[i])
    ensures runner < |s.txs| && Advanced(s, runner).Some?
  {
    runner := i;
    if Advanced(s, i).None? && s.txs[i].pc.InsertEvent? {
      runner := EventHolder(s, s.txs[i].record.requestId);
    }
    if Advanced(s, runner).None? {
      runner := DailyHolder(s, Key(s.txs[runner].record));
    }
  }

  lemma EventHolder(s: System, id: string) returns (j: nat)
    requires EventHeld(s, id)
    ensures j < |s.txs| && HoldsEvent(s.txs[j])
  {
    j :| 0 <= j < |s.txs| && HoldsEvent(s.txs[j]) && s.txs[j].record.requestId == id;
  }

  lemma DailyHolder(s: System, k: UsageKey) returns (j: nat)
    requires DailyHeld(s, k)
    ensures j < |s.txs| && Advanced(s, j).Some?
  {
    j :| 0 <= j < |s.txs| && HoldsDaily(s.txs[j]) && Key(s.txs[j].record) == k;
  }

  /** Every executed statement, and every rollback, uses up some of a measure that starts at six per call;
      a waiting transaction uses none. */
  lemma StepUsesMeasure(s: System, a: Action)
    requires Inv(s)
    ensures 0 <= Measure(Step(s, a))
    ensures Step(s, a) != s ==> Measure(Step(s, a)) < Measure(s)
  {
    SumNonNegative(Step(s, a).txs, Remaining);
    if a.i < |s.txs| && Step(s, a) != s {
      StepUsesRank(s, a);
      SumUpdate(s.txs, a.i, Step(s, a).txs[a.i], Remaining);
    }
  }

  lemma StepUsesRank(s: System, a: Action)
    requires a.i < |s.txs| && Step(s, a) != s
    ensures Step(s, a).txs == s.txs[a.i := Step(s, a).txs[a.i]]
    ensures Remaining(Step(s, a).txs[a.i]) < Remaining(s.txs[a.i])
  {
  }

  /** How many actions of a schedule actually did something. */
  ghost function Effective(s: System, acts: seq<Action>): nat
    decreases |acts|
  {
    if acts == [] then 0
    else (if Step(s, acts[0]) != s then 1 else 0) + Effective(Step(s, acts[0]), acts[1..])
  }

  lemma {:induction false} MeasureBoundsWork(s: System, acts: seq<Action>)
    requires Inv(s)
    ensures Effective(s, acts) + Measure(Run(s, acts)) <= Measure(s)
    decreases |acts|
  {
    if acts == [] {
    } else {
      StepKeepsInv(s, acts[0]);
      StepUsesMeasure(s, acts[0]);
      MeasureBoundsWork(Step(s, acts[0]), acts[1..]);
    }
  }

  lemma {:induction false} StartMeasure(txs: seq<Tx>)
    requires forall i :: 0 <= i < |txs| ==> txs[i].pc == InsertEvent
    ensures Sum(txs, Remaining) == 6 * |txs|
  {
    if txs == [] {
    } else {
      StartMeasure(txs[1..]);
    }
  }

  /** No schedule makes the calls work forever: at most six effective steps per call. */
  lemma WorkIsBounded(s: System, acts: seq<Action>)
    requires Start(s)
    ensures Effective(s, acts) <= 6 * |s.txs|
  {
    StartMeasure(s.txs);
    assert Inv(s);
    MeasureBoundsWork(s, acts);
    MeasureNonNegative(Run(s, acts));
  }

  lemma MeasureNonNegative(s: System)
    ensures Measure(s) >= 0
  {
    SumNonNegative(s.txs, Remaining);
  }

  ghost predicate AllFinished(s: System) {
    forall i :: 0 <= i < |s.txs| ==> Finished(s.txs[i])
  }

  lemma RunnerProgresses(s: System, runner: nat)
    requires Inv(s) && runner < |s.txs| && Advanced(s, runner).Some?
    ensures Inv(Step(s, Advance(runner))) && 0 <= Measure(Step(s, Advance(runner))) < Measure(s)
  {
    StepIsAtomic(s, runner);
    StepKeepsInv(s, Advance(runner));
    StepUsesMeasure(s, Advance(runner));
  }

  lemma RunCons(s: System, a: Action, rest: seq<Action>)
    ensures Run(s, [a] + rest) == Run(Step(s, a), rest)
  {
  }

  /** From every reachable state the calls can be brought to completion without any rollback. */
  lemma CanComplete(s: System) returns (acts: seq<Action>)
    requires Inv(s)
    ensures AllFinished(Run(s, acts)) && forall n :: 0 <= n < |acts| ==> acts[n].Advance?
    decreases Measure(s)
  {
    MeasureNonNegative(s);
    if AllFinished(s) {
      acts := [];
    } else {
      var i :| 0 <= i < |s.txs| && !Finished(s.txs[i]);
      var runner := NoDeadlock(s, i);
      RunnerProgresses(s, runner);
      var rest := CanComplete(Step(s, Advance(runner)));
      RunCons(s, Advance(runner), rest);
      acts := [Advance(runner)] + rest;
    }
  }

  // ---------- concurrent delivery equals one clean stream ----------

  function Records(txs: seq<Tx>): seq<UsageRecord> { seq(|txs|, i requires 0 <= i < |txs| => txs[i].record) }

  function InOrder(txs: seq<Tx>, order: seq<nat>): seq<UsageRecord>
    requires forall n :: 0 <= n < |order| ==> order[n] < |txs|
  {
    seq(|order|, n requires 0 <= n < |order| => txs[order[n]].record)
  }

  lemma {:induction false} SerialIsStream(db: Db, txs: seq<Tx>, order: seq<nat>)
    requires forall n :: 0 <= n < |order| ==> order[n] < |txs|
    requires RecordAll(db, InOrder(txs, order)).1
    ensures Serial(db, txs, order) == RecordAll(db, InOrder(txs, order)).0
    decreases |order|
  {
    if order == [] {
    } else {
      var front, last := order[..|order| - 1], txs[order[|order| - 1]].record;
      assert InOrder(txs, order) == InOrder(txs, front) + [last];
      RecordAllAppend(db, InOrder(txs, front), [last]);
      SerialIsStream(db, txs, front);
      assert [last][1..] == [];
    }
  }

  lemma {:induction false} NoRollback(s: System, acts: seq<Action>)
    requires forall n :: 0 <= n < |acts| ==> acts[n].Advance?
    requires forall i :: 0 <= i < |s.txs| ==> !s.txs[i].pc.RolledBack?
    ensures forall i :: 0 <= i < |Run(s, acts).txs| ==> !Run(s, acts).txs[i].pc.RolledBack?
    decreases |acts|
  {
    if acts == [] {
    } else {
      NoRollback(Step(s, acts[0]), acts[1..]);
    }
  }

  /** Once all calls have returned, the order in which they did lists every call. */
  lemma AllAreListed(s0: System, n: System)
    requires SameCalls(s0, n) && Listed(n) && forall i :: 0 <= i < |n.txs| ==> n.txs[i].pc.Done?
    ensures forall r :: r in Records(s0.txs) <==> r in InOrder(s0.txs, n.finished)
  {
    var rs, qs := Records(s0.txs), InOrder(s0.txs, n.finished);
    forall r | r in rs ensures r in qs {
      var i :| 0 <= i < |rs| && rs[i] == r;
      assert n.txs[i].pc.Done?;
      var p :| 0 <= p < |n.finished| && n.finished[p] == i;
      assert qs[p] == r;
    }
    forall r | r in qs ensures r in rs {
      var p :| 0 <= p < |qs| && qs[p] == r;
      assert rs[n.finished[p]] == r;
    }
  }

  lemma AllReturn(s: System, acts: seq<Action>)
    requires Start(s) && AllFinished(Run(s, acts)) && forall n :: 0 <= n < |acts| ==> acts[n].Advance?
    ensures forall i :: 0 <= i < |Run(s, acts).txs| ==> Run(s, acts).txs[i].pc.Done?
  {
    NoRollback(s, acts);
  }

  /** Any interleaving of calls that all run to their end leaves the tables of one stream delivering the
      same records one after the other. */
  lemma ConcurrentDeliveryEqualsStream(s: System, acts: seq<Action>)
    requires Start(s) && OnePayload(s.committed.events, Records(s.txs)) && Acceptable(s.committed.events, Records(s.txs))
    requires AllFinished(Run(s, acts)) && forall n :: 0 <= n < |acts| ==> acts[n].Advance?
    ensures Run(s, acts).committed == RecordAll(s.committed, Records(s.txs)).0
  {
    var n := Run(s, acts);
    RunsAreSerializable(s, acts);
    AllReturn(s, acts);
    AllAreListed(s, n);
    StreamOutcome(s.committed, Records(s.txs));
    DeliveryOrderIrrelevant(s.committed, Records(s.txs), InOrder(s.txs, n.finished));
    SerialIsStream(s.committed, s.txs, n.finished);
  }

  // ---------- delivery again after rollbacks ----------

  /** later has the events of earlier, and beyond them only storable records of rs. */
  ghost predicate Between(earlier: map<string, UsageRecord>, later: map<string, UsageRecord>, rs: seq<UsageRecord>) {
    && (forall id :: id in earlier ==> id in later && later[id] == earlier[id])
    && (forall id :: id in later && id !in earlier ==>
          later[id] in rs && CheckRow(later[id]) == Fits && later[id].requestId == id)
  }

  lemma {:induction false} SerialIsBetween(db: Db, txs: seq<Tx>, order: seq<nat>)
    ensures Between(db.events, Serial(db, txs, order).events, Records(txs))
    decreases |order|
  {
    if order == [] {
    } else {
      SerialIsBetween(db, txs, order[..|order| - 1]);
      var last := order[|order| - 1];
      if last < |txs| { assert Records(txs)[last] == txs[last].record; }
    }
  }

  /** Merging the records into what lies between is merging them into the start. */
  lemma MergeFromBetween(earlier: map<string, UsageRecord>, later: map<string, UsageRecord>, rs: seq<UsageRecord>)
    requires OnePayload(earlier, rs) && Between(earlier, later, rs)
    ensures Merge(later, rs) == Merge(earlier, rs)
  {
    assert OnePayload(later, rs);
    forall id
      ensures id in Merge(later, rs) <==> id in Merge(earlier, rs)
      ensures id in Merge(later, rs) ==> Merge(later, rs)[id] == Merge(earlier, rs)[id]
    {
      MergeContents(later, rs, id);
      MergeContents(earlier, rs, id);
    }
  }

  /** Whatever was interleaved, rolled back, cut short or never begun: delivering all records again ends as
      one clean stream of them would have ended, and then leaves the same tables. */
  lemma RedeliveryCompletesAnyRun(s: System, acts: seq<Action>)
    requires Start(s) && OnePayload(s.committed.events, Records(s.txs))
    ensures var rs, n := Records(s.txs), Run(s, acts).committed;
            && RecordAll(n, rs).1 == RecordAll(s.committed, rs).1
            && (RecordAll(n, rs).1 ==> RecordAll(n, rs) == RecordAll(s.committed, rs))
  {
    var rs, n := Records(s.txs), Run(s, acts);
    RunsAreSerializable(s, acts);
    AggregateAlwaysAgrees(s, acts);
    SerialIsBetween(s.committed, s.txs, n.finished);
    MergeFromBetween(s.committed.events, n.committed.events, rs);
    StreamOutcome(s.committed, rs);
    StreamOutcome(n.committed, rs);
  }
}
