/** Exactly-once usage accounting: the event table, the daily aggregate, one call of record_usage
    and the access-log stream that feeds it (apps/usage/service.py, models.py, als.py). */
module Usage {
  import opened Common

  const MAX_BIGINT := 0x7FFF_FFFF_FFFF_FFFF
  const MAX_SMALLINT := 32767

  /** One access-log record. occurredAt counts UTC seconds. */
  datatype UsageRecord = UsageRecord(
    requestId: string,
    user: string,
    projectId: int,
    shortcut: string,
    model: string,
    route: string,
    tokens: int,
    responseCode: Option<int>,
    occurredAt: int)

  /** The unique identity of a daily row. */
  datatype UsageKey = UsageKey(day: int, user: string, projectId: int, shortcut: string, model: string)

  datatype DailyRow = DailyRow(tokens: int, requests: int)

  /** The two tables, each keyed by its unique index. */
  datatype Db = Db(events: map<string, UsageRecord>, daily: map<UsageKey, DailyRow>)

  /** record_usage returned True, returned False, or raised. */
  datatype Outcome = Recorded | Ignored | Failed

  /** What the column types and check constraints say about one row, before any index is consulted:
      a value no column can hold raises DataError, a negative one an IntegrityError. */
  datatype RowCheck = Fits | Violates | OutOfRange

  function Day(r: UsageRecord): int { r.occurredAt / SECONDS_PER_DAY }

  function Key(r: UsageRecord): UsageKey {
    UsageKey(Day(r), r.user, r.projectId, r.shortcut, r.model)
  }

  predicate InBigint(n: int) { -MAX_BIGINT - 1 <= n <= MAX_BIGINT }

  function CheckRow(r: UsageRecord): RowCheck {
    if |r.requestId| > 128 || |r.user| > 150 || |r.shortcut| > 32 || |r.model| > 200 || |r.route| > 255
      || !InBigint(r.projectId) || !InBigint(r.tokens)
      || (r.responseCode.Some? && !(-MAX_SMALLINT - 1 <= r.responseCode.value <= MAX_SMALLINT)) then OutOfRange
    else if r.projectId < 0 || r.tokens < 0 || (r.responseCode.Some? && r.responseCode.value < 0) then Violates
    else Fits
  }

  /** A record counts for the UTC date that its time lies in. */
  lemma DayIs(r: UsageRecord, n: int)
    ensures Day(r) == n <==> 86400 * n <= r.occurredAt < 86400 * (n + 1)
  {
  }

  /** The daily row of r's key once r is added to it. */
  function Bumped(daily: map<UsageKey, DailyRow>, r: UsageRecord): DailyRow {
    if Key(r) in daily then DailyRow(daily[Key(r)].tokens + r.tokens, daily[Key(r)].requests + 1)
    else DailyRow(r.tokens, 1)
  }

  predicate RowInRange(row: DailyRow) { row.tokens <= MAX_BIGINT && row.requests <= MAX_BIGINT }

  /** One undisturbed call of record_usage. */
  function Record(db: Db, r: UsageRecord): (Db, Outcome) {
    match CheckRow(r)
    case OutOfRange => (db, Failed)
    case Violates => (db, Ignored)
    case Fits =>
      if r.requestId in db.events then (db, Ignored)
      else if !RowInRange(Bumped(db.daily, r)) then (db, Failed)
      else (Db(db.events[r.requestId := r], db.daily[Key(r) := Bumped(db.daily, r)]), Recorded)
  }

  /** The length and range the columns admit, whatever sign the numbers have. */
  ghost predicate Storable(r: UsageRecord) {
    && |r.requestId| <= 128 && |r.user| <= 150 && |r.shortcut| <= 32 && |r.model| <= 200 && |r.route| <= 255
    && -9223372036854775808 <= r.projectId <= 9223372036854775807
    && -9223372036854775808 <= r.tokens <= 9223372036854775807
    && (r.responseCode.Some? ==> -32768 <= r.responseCode.value <= 32767)
  }

  ghost predicate Signless(r: UsageRecord) {
    r.projectId >= 0 && r.tokens >= 0 && (r.responseCode.Some? ==> r.responseCode.value >= 0)
  }

  /** When a call answers True, when False, and when it raises, with the bounds the columns set: an unstorable
      record raises; a negative number or a known request is answered False; otherwise the call raises exactly
      if a counter of its daily row would exceed 9223372036854775807. */
  lemma RecordAnswers(db: Db, r: UsageRecord)
    ensures var answer, k := Record(db, r).1, UsageKey(Day(r), r.user, r.projectId, r.shortcut, r.model);
            var fits := if k in db.daily
                        then db.daily[k].tokens + r.tokens <= 9223372036854775807 && db.daily[k].requests + 1 <= 9223372036854775807
                        else true;
            && (answer == Recorded <==> Storable(r) && Signless(r) && r.requestId !in db.events && fits)
            && (answer == Ignored <==> Storable(r) && (!Signless(r) || r.requestId in db.events))
  {
  }

  // ---------- the naive recount ----------

  ghost function SumOver(events: map<string, UsageRecord>, f: UsageRecord -> int): int
    decreases |events|
  {
    if events == map[] then 0 else
      var id :| id in events;
      f(events[id]) + SumOver(events - {id}, f)
  }

  function TokenWeight(k: UsageKey): UsageRecord -> int { r => if Key(r) == k then r.tokens else 0 }

  function RequestWeight(k: UsageKey): UsageRecord -> int { r => if Key(r) == k then 1 else 0 }

  ghost function KeysOf(events: map<string, UsageRecord>): set<UsageKey> {
    set id | id in events :: Key(events[id])
  }

  /** The aggregate computed from nothing but the event table. */
  ghost function Recount(events: map<string, UsageRecord>): map<UsageKey, DailyRow> {
    map k | k in KeysOf(events) :: DailyRow(SumOver(events, TokenWeight(k)), SumOver(events, RequestWeight(k)))
  }

  ghost predicate WellKeyed(events: map<string, UsageRecord>) {
    forall id :: id in events ==> events[id].requestId == id && CheckRow(events[id]) == Fits
  }

  ghost predicate InRange(daily: map<UsageKey, DailyRow>) {
    forall k :: k in daily ==> RowInRange(daily[k])
  }

  /** The aggregate agrees with the event log and every stored counter fits its column. */
  ghost predicate Agrees(db: Db) {
    WellKeyed(db.events) && db.daily == Recount(db.events) && InRange(db.daily)
  }

  lemma {:induction false} SumRemove(events: map<string, UsageRecord>, id: string, f: UsageRecord -> int)
    requires id in events
    ensures SumOver(events, f) == f(events[id]) + SumOver(events - {id}, f)
    decreases |events|
  {
    var x :| x in events && SumOver(events, f) == f(events[x]) + SumOver(events - {x}, f);
    if x == id {
    } else {
      SumRemove(events - {x}, id, f);
      SumRemove(events - {id}, x, f);
      assert events - {x} - {id} == events - {id} - {x};
    }
  }

  lemma SumAdd(events: map<string, UsageRecord>, r: UsageRecord, f: UsageRecord -> int)
    requires r.requestId !in events
    ensures SumOver(events[r.requestId := r], f) == SumOver(events, f) + f(r)
  {
    SumRemove(events[r.requestId := r], r.requestId, f);
    assert events[r.requestId := r] - {r.requestId} == events;
  }

  /** Nothing has been counted for a key no event carries. */
  lemma {:induction false} SumAbsent(events: map<string, UsageRecord>, k: UsageKey)
    requires k !in KeysOf(events)
    ensures SumOver(events, TokenWeight(k)) == 0 && SumOver(events, RequestWeight(k)) == 0
    decreases |events|
  {
    if events == map[] {
    } else {
      var id :| id in events;
      SumRemove(events, id, TokenWeight(k));
      SumRemove(events, id, RequestWeight(k));
      assert Key(events[id]) in KeysOf(events);
      assert KeysOf(events - {id}) <= KeysOf(events);
      SumAbsent(events - {id}, k);
    }
  }

  lemma KeysAdd(events: map<string, UsageRecord>, r: UsageRecord)
    requires r.requestId !in events
    ensures KeysOf(events[r.requestId := r]) == KeysOf(events) + {Key(r)}
  {
    var more := events[r.requestId := r];
    assert more[r.requestId] == r;
    forall k | k in KeysOf(events) ensures k in KeysOf(more) {
      var id :| id in events && Key(events[id]) == k;
      assert more[id] == events[id];
    }
  }

  /** What is counted under a key once one more event is there. */
  lemma SumsAdd(events: map<string, UsageRecord>, r: UsageRecord, k: UsageKey)
    requires r.requestId !in events
    ensures var more := events[r.requestId := r];
            && SumOver(more, TokenWeight(k)) == (if k in KeysOf(events) then SumOver(events, TokenWeight(k)) else 0) + TokenWeight(k)(r)
            && SumOver(more, RequestWeight(k)) == (if k in KeysOf(events) then SumOver(events, RequestWeight(k)) else 0) + RequestWeight(k)(r)
  {
    SumAdd(events, r, TokenWeight(k));
    SumAdd(events, r, RequestWeight(k));
    if k !in KeysOf(events) { SumAbsent(events, k); }
  }

  lemma RecountAt(events: map<string, UsageRecord>, k: UsageKey)
    ensures k in Recount(events) <==> k in KeysOf(events)
    ensures k in KeysOf(events) ==>
              Recount(events)[k] == DailyRow(SumOver(events, TokenWeight(k)), SumOver(events, RequestWeight(k)))
  {
  }

  lemma RecountAddAt(events: map<string, UsageRecord>, r: UsageRecord, k: UsageKey)
    requires r.requestId !in events && k in KeysOf(events[r.requestId := r])
    ensures k in Recount(events) || k == Key(r)
    ensures Recount(events[r.requestId := r])[k] == Recount(events)[Key(r) := Bumped(Recount(events), r)][k]
  {
    KeysAdd(events, r);
    SumsAdd(events, r, k);
    RecountAt(events, k);
    RecountAt(events[r.requestId := r], k);
    assert TokenWeight(k)(r) == (if k == Key(r) then r.tokens else 0) && RequestWeight(k)(r) == if k == Key(r) then 1 else 0;
  }

  /** Incrementing the aggregate in place gives the same table as recounting from scratch. */
  lemma RecountAdd(events: map<string, UsageRecord>, r: UsageRecord)
    requires r.requestId !in events
    ensures Recount(events[r.requestId := r]) == Recount(events)[Key(r) := Bumped(Recount(events), r)]
  {
    KeysAdd(events, r);
    var recounted, bumped := Recount(events[r.requestId := r]), Recount(events)[Key(r) := Bumped(Recount(events), r)];
    forall k | k in recounted ensures recounted[k] == bumped[k] { RecountAddAt(events, r, k); }
  }

  /** One call keeps the aggregate equal to the recount, and changes both tables or neither. */
  lemma RecordKeepsAgreement(db: Db, r: UsageRecord)
    requires Agrees(db)
    ensures Agrees(Record(db, r).0)
    ensures Record(db, r).1 == Recorded <==> Record(db, r).0 != db
    ensures Record(db, r).1 == Recorded ==> Record(db, r).0.events == db.events[r.requestId := r]
  {
    if Record(db, r).1 == Recorded {
      RecountAdd(db.events, r);
      assert r.requestId in Record(db, r).0.events;
    }
  }

  /** Replaying a request is answered False and leaves the tables alone, whatever its payload now says,
      unless the payload cannot be stored in the columns at all. */
  lemma ReplayIgnored(db: Db, r: UsageRecord, again: UsageRecord)
    requires Record(db, r).1 == Recorded && again.requestId == r.requestId && CheckRow(again) != OutOfRange
    ensures Record(Record(db, r).0, again) == (Record(db, r).0, Ignored)
  {
  }

  // ---------- streams ----------

  /** The stream handler's fold; an exception ends the stream and keeps what was committed before. */
  function RecordAll(db: Db, rs: seq<UsageRecord>): (Db, bool)
    decreases |rs|
  {
    if rs == [] then (db, true)
    else
      var (next, outcome) := Record(db, rs[0]);
      if outcome == Failed then (db, false) else RecordAll(next, rs[1..])
  }

  /** The event table after rs, first occurrence of each request winning. */
  function Merge(events: map<string, UsageRecord>, rs: seq<UsageRecord>): map<string, UsageRecord>
    decreases |rs|
  {
    if rs == [] then events
    else if CheckRow(rs[0]) == Fits && rs[0].requestId !in events
    then Merge(events[rs[0].requestId := rs[0]], rs[1..])
    else Merge(events, rs[1..])
  }

  ghost predicate Acceptable(events: map<string, UsageRecord>, rs: seq<UsageRecord>) {
    && (forall r :: r in rs ==> CheckRow(r) != OutOfRange)
    && InRange(Recount(Merge(events, rs)))
  }

  lemma {:induction false} CountersOnlyGrow(events: map<string, UsageRecord>, rs: seq<UsageRecord>, k: UsageKey)
    requires k in KeysOf(events)
    ensures k in KeysOf(Merge(events, rs))
    ensures Recount(events)[k].tokens <= Recount(Merge(events, rs))[k].tokens
    ensures Recount(events)[k].requests <= Recount(Merge(events, rs))[k].requests
    decreases |rs|
  {
    if rs == [] {
    } else {
      var r := rs[0];
      if CheckRow(r) == Fits && r.requestId !in events {
        RecountAdd(events, r);
        KeysAdd(events, r);
        CountersOnlyGrow(events[r.requestId := r], rs[1..], k);
      } else {
        CountersOnlyGrow(events, rs[1..], k);
      }
    }
  }

  /** A stream runs to its end exactly when every record fits the columns and the recount of the merged
      event table fits the counters; the tables are then the merged events and their recount. The
      right-hand sides do not mention the order in which the stream was processed. */
  lemma {:induction false} StreamOutcome(db: Db, rs: seq<UsageRecord>)
    requires Agrees(db)
    ensures Agrees(RecordAll(db, rs).0)
    ensures RecordAll(db, rs).1 <==> Acceptable(db.events, rs)
    ensures RecordAll(db, rs).1 ==>
              RecordAll(db, rs).0 == Db(Merge(db.events, rs), Recount(Merge(db.events, rs)))
    decreases |rs|
  {
    if rs == [] {
    } else {
      var r := rs[0];
      var (next, outcome) := Record(db, r);
      RecordKeepsAgreement(db, r);
      assert forall x :: x in rs <==> x == r || x in rs[1..];
      if outcome == Failed && CheckRow(r) == Fits {
        var more := db.events[r.requestId := r];
        RecountAdd(db.events, r);
        assert Key(r) in Recount(more);
        CountersOnlyGrow(more, rs[1..], Key(r));
        assert !RowInRange(Recount(Merge(db.events, rs))[Key(r)]);
      } else if outcome != Failed {
        StreamOutcome(next, rs[1..]);
      }
    }
  }

  /** Each request identifier carries one payload, in the table and in the stream. */
  ghost predicate OnePayload(events: map<string, UsageRecord>, rs: seq<UsageRecord>) {
    && (forall r :: r in rs && r.requestId in events ==> events[r.requestId] == r)
    && (forall r, q :: r in rs && q in rs && r.requestId == q.requestId ==> r == q)
  }

  lemma {:induction false} MergeContents(events: map<string, UsageRecord>, rs: seq<UsageRecord>, id: string)
    requires OnePayload(events, rs)
    ensures id in Merge(events, rs) <==> id in events || exists r :: r in rs && CheckRow(r) == Fits && r.requestId == id
    ensures id in events ==> id in Merge(events, rs) && Merge(events, rs)[id] == events[id]
    ensures forall r :: r in rs && CheckRow(r) == Fits && r.requestId == id ==>
              id in Merge(events, rs) && Merge(events, rs)[id] == r
    decreases |rs|
  {
    if rs == [] {
    } else {
      var r := rs[0];
      assert forall x :: x in rs <==> x == r || x in rs[1..];
      if CheckRow(r) == Fits && r.requestId !in events {
        MergeContents(events[r.requestId := r], rs[1..], id);
      } else {
        MergeContents(events, rs[1..], id);
      }
    }
  }

  /** Order and duplication do not matter: two streams with the same set of records both finish or both
      fail, and when they finish they leave the same events and the same aggregate. */
  lemma DeliveryOrderIrrelevant(db: Db, rs: seq<UsageRecord>, qs: seq<UsageRecord>)
    requires Agrees(db) && OnePayload(db.events, rs)
    requires forall r :: r in rs <==> r in qs
    ensures RecordAll(db, rs).1 == RecordAll(db, qs).1
    ensures RecordAll(db, rs).1 ==> RecordAll(db, rs) == RecordAll(db, qs)
  {
    forall id
      ensures id in Merge(db.events, rs) <==> id in Merge(db.events, qs)
      ensures id in Merge(db.events, rs) ==> Merge(db.events, rs)[id] == Merge(db.events, qs)[id]
    {
      MergeContents(db.events, rs, id);
      MergeContents(db.events, qs, id);
    }
    assert Merge(db.events, rs) == Merge(db.events, qs);
    StreamOutcome(db, rs);
    StreamOutcome(db, qs);
  }

  lemma {:induction false} RecordAllAppend(db: Db, p: seq<UsageRecord>, q: seq<UsageRecord>)
    ensures RecordAll(db, p).1 ==> RecordAll(db, p + q) == RecordAll(RecordAll(db, p).0, q)
    ensures !RecordAll(db, p).1 ==> RecordAll(db, p + q) == RecordAll(db, p)
    decreases |p|
  {
    if p == [] {
      assert p + q == q;
    } else {
      assert (p + q)[0] == p[0] && (p + q)[1..] == p[1..] + q;
      RecordAllAppend(Record(db, p[0]).0, p[1..], q);
    }
  }

  /** Every request of rs that could be stored already has an event. */
  ghost predicate Absorbed(events: map<string, UsageRecord>, rs: seq<UsageRecord>) {
    forall r :: r in rs && CheckRow(r) == Fits ==> r.requestId in events
  }

  lemma {:induction false} StreamAbsorbs(db: Db, rs: seq<UsageRecord>)
    requires RecordAll(db, rs).1
    ensures db.events.Keys <= RecordAll(db, rs).0.events.Keys && Absorbed(RecordAll(db, rs).0.events, rs)
    ensures forall r :: r in rs ==> CheckRow(r) != OutOfRange
    decreases |rs|
  {
    if rs == [] {
    } else {
      assert forall x :: x in rs <==> x == rs[0] || x in rs[1..];
      StreamAbsorbs(Record(db, rs[0]).0, rs[1..]);
    }
  }

  lemma {:induction false} AbsorbedIsNoop(db: Db, rs: seq<UsageRecord>)
    requires Absorbed(db.events, rs) && forall r :: r in rs ==> CheckRow(r) != OutOfRange
    ensures RecordAll(db, rs) == (db, true)
  {
    if rs == [] {
    } else {
      assert forall x :: x in rs <==> x == rs[0] || x in rs[1..];
      AbsorbedIsNoop(db, rs[1..]);
    }
  }

  /** Everything again, after a prefix of it has been recorded without an exception. */
  lemma ResendAfterProgress(db: Db, rs: seq<UsageRecord>, n: nat)
    requires n <= |rs| && RecordAll(db, rs[..n]).1
    ensures RecordAll(RecordAll(db, rs[..n]).0, rs) == RecordAll(db, rs)
  {
    assert rs == rs[..n] + rs[n..];
    RecordAllAppend(db, rs[..n], rs[n..]);
    var half := RecordAll(db, rs[..n]).0;
    StreamAbsorbs(db, rs[..n]);
    AbsorbedIsNoop(half, rs[..n]);
    RecordAllAppend(half, rs[..n], rs[n..]);
  }

  /** A stream that ends in an exception has recorded what the records before the failing one leave. */
  lemma {:induction false} UpToTheException(db: Db, rs: seq<UsageRecord>) returns (k: nat)
    requires !RecordAll(db, rs).1
    ensures k < |rs| && RecordAll(db, rs[..k]) == (RecordAll(db, rs).0, true)
    decreases |rs|
  {
    var (next, outcome) := Record(db, rs[0]);
    if outcome == Failed {
      k := 0;
    } else {
      var j := UpToTheException(next, rs[1..]);
      k := j + 1;
      assert rs[..k][1..] == rs[1..][..j];
    }
  }

  /** Stopping anywhere, at a cut or at an exception, and resending everything gives the tables and the
      answer of one run from the start. */
  lemma ResendAfterInterruption(db: Db, rs: seq<UsageRecord>, n: nat)
    requires n <= |rs|
    ensures RecordAll(RecordAll(db, rs[..n]).0, rs) == RecordAll(db, rs)
  {
    if RecordAll(db, rs[..n]).1 {
      ResendAfterProgress(db, rs, n);
    } else {
      var k := UpToTheException(db, rs[..n]);
      assert rs[..n][..k] == rs[..k];
      ResendAfterProgress(db, rs, k);
    }
  }

  // ---------- the stream's messages ----------

  datatype TokenValue = Missing | NumberValue(number: real) | StringValue(parsed: Option<int>) | OtherValue

  /** The fields of an access-log entry that parse_entry reads, headers already looked up
      ('' when absent); arrival is the wall clock read when the entry has no start time. */
  datatype Entry = Entry(
    requestId: string, user: string, project: string, projectId: Option<int>, model: string, routeName: string,
    tokens: TokenValue, responseCode: Option<int>, startTime: Option<int>, arrival: int)

  datatype Message = HttpLogs(entries: seq<Entry>) | OtherLogs

  /** str.strip() on ASCII whitespace. */
  function Strip(s: string): string
    decreases |s|
  {
    if s == "" then ""
    else if IsSpace(s[0]) then Strip(s[1..])
    else if IsSpace(s[|s| - 1]) then Strip(s[..|s| - 1])
    else s
  }

  function TokenCount(v: TokenValue): Option<int> {
    match v
    case NumberValue(n) => if n.Floor as real == n && n >= 0.0 then Some(n.Floor) else None
    case StringValue(Some(n)) => if n >= 0 then Some(n) else None
    case _ => None
  }

  function ParseEntry(e: Entry): Option<UsageRecord> {
    var id, user, project, route := Strip(e.requestId), Strip(e.user), Strip(e.project), Strip(e.routeName);
    var model := if Strip(e.model) != "" then Strip(e.model) else route;
    var tokens := TokenCount(e.tokens);
    if id == "" || user == "" || project == "" || model == "" || tokens.None? || e.projectId.None? then None
    else Some(UsageRecord(id, user, e.projectId.value, project, model, route, tokens.value, e.responseCode,
                          if e.startTime.Some? then e.startTime.value else e.arrival))
  }

  /** The records a sequence of entries yields, incomplete entries dropped. */
  function Parsed(es: seq<Entry>): seq<UsageRecord> {
    if es == [] then []
    else (match ParseEntry(es[0]) case None => [] case Some(r) => [r]) + Parsed(es[1..])
  }

  function Delivered(ms: seq<Message>): seq<UsageRecord> {
    if ms == [] then []
    else (if ms[0].HttpLogs? then Parsed(ms[0].entries) else []) + Delivered(ms[1..])
  }

  /** Stripping removes the white space around a text and nothing else. */
  lemma {:induction false} StripIs(before: string, core: string, after: string)
    requires Spaces(before) && Spaces(after) && core != "" && !IsSpace(core[0]) && !IsSpace(core[|core| - 1])
    ensures Strip(before + core + after) == core
    decreases |before| + |after|
  {
    var s := before + core + after;
    if before != "" {
      assert s[0] == before[0] && s[1..] == before[1..] + core + after;
      StripIs(before[1..], core, after);
    } else if after != "" {
      assert s == core + after && s[|s| - 1] == after[|after| - 1];
      assert s[..|s| - 1] == before + core + after[..|after| - 1];
      StripIs(before, core, after[..|after| - 1]);
    } else {
      assert s == core;
    }
  }

  lemma {:induction false} StripOfSpaces(s: string)
    requires Spaces(s)
    ensures Strip(s) == ""
  {
    if s == "" {
    } else {
      StripOfSpaces(s[1..]);
    }
  }

  lemma PaddedBy(before: string, core: string, after: string, text: string)
    requires Spaces(before) && Spaces(after) && core != "" && !IsSpace(core[0]) && !IsSpace(core[|core| - 1])
    requires text == before + core + after
    ensures Padded(text, core)
  {
  }

  lemma PadBefore(c: char, s: string, core: string)
    requires IsSpace(c) && Padded(s, core)
    ensures Padded([c] + s, core)
  {
    var b, a :| Spaces(b) && Spaces(a) && s == b + core + a;
    assert [c] + s == ([c] + b) + core + a;
    PaddedBy([c] + b, core, a, [c] + s);
  }

  lemma PadAfter(s: string, core: string, c: char)
    requires IsSpace(c) && Padded(s, core)
    ensures Padded(s + [c], core)
  {
    var b, a :| Spaces(b) && Spaces(a) && s == b + core + a;
    assert s + [c] == b + core + (a + [c]);
    PaddedBy(b, core, a + [c], s + [c]);
  }

  lemma SplitBefore(s: string)
    requires s != "" && IsSpace(s[0])
    requires Strip(s[1..]) == "" <==> Spaces(s[1..])
    requires Strip(s[1..]) != "" ==> Padded(s[1..], Strip(s[1..]))
    ensures Strip(s) == "" <==> Spaces(s)
    ensures Strip(s) != "" ==> Padded(s, Strip(s))
  {
    assert s == [s[0]] + s[1..];
    if Strip(s) != "" { PadBefore(s[0], s[1..], Strip(s)); }
  }

  /** Every text is white space or has a core. */
  lemma {:induction false} StripSplits(s: string)
    ensures Strip(s) == "" <==> Spaces(s)
    ensures Strip(s) != "" ==> Padded(s, Strip(s))
    decreases |s|
  {
    if s == "" {
    } else if IsSpace(s[0]) {
      StripSplits(s[1..]);
      SplitBefore(s);
    } else if IsSpace(s[|s| - 1]) {
      StripSplits(s[..|s| - 1]);
      assert s == s[..|s| - 1] + [s[|s| - 1]];
      if Strip(s) != "" { PadAfter(s[..|s| - 1], Strip(s), s[|s| - 1]); }
    } else {
      assert Spaces("") && s == "" + s + "";
    }
  }

  lemma PaddedStrips(text: string, core: string)
    requires Padded(text, core)
    ensures Strip(text) == core
  {
    var before, after :| Spaces(before) && Spaces(after) && text == before + core + after;
    StripIs(before, core, after);
  }

  /** The token value says k: a whole number, or text that reads as one. */
  ghost predicate Says(v: TokenValue, k: nat) { v == NumberValue(k as real) || v == StringValue(Some(k)) }

  /** The model of an entry: its header, or the route name if the header is empty. */
  ghost predicate NamesModel(e: Entry, model: string) {
    Padded(e.model, model) || (Spaces(e.model) && Padded(e.routeName, model))
  }

  /** The route recorded is the route name without white space around it, which may be empty. */
  ghost predicate NamesRoute(e: Entry, route: string) {
    Padded(e.routeName, route) || (Spaces(e.routeName) && route == "")
  }

  /** What an entry is recorded as: the values it carries, white space around them removed, the tokens it
      says, and its own time if it has one. */
  lemma EntryIsRecordedAs(e: Entry, id: string, user: string, project: string, pk: int, model: string, route: string, k: nat)
    requires Padded(e.requestId, id) && Padded(e.user, user) && Padded(e.project, project) && e.projectId == Some(pk)
    requires NamesModel(e, model) && NamesRoute(e, route) && Says(e.tokens, k)
    ensures ParseEntry(e) ==
            Some(UsageRecord(id, user, pk, project, model, route, k, e.responseCode,
                             match e.startTime case Some(t) => t case None => e.arrival))
  {
    PaddedStrips(e.requestId, id);
    PaddedStrips(e.user, user);
    PaddedStrips(e.project, project);
    if Padded(e.model, model) { PaddedStrips(e.model, model); } else { StripOfSpaces(e.model); }
    if Padded(e.routeName, route) { PaddedStrips(e.routeName, route); } else { StripOfSpaces(e.routeName); }
    if !Padded(e.model, model) { PaddedStrips(e.routeName, model); }
    SaysCount(e.tokens, k);
  }

  lemma SaysCount(v: TokenValue, k: nat)
    requires Says(v, k)
    ensures TokenCount(v) == Some(k)
  {
    assert (k as real).Floor == k;
  }

  /** An entry is dropped exactly when it lacks a request, a user, a project, a project number or a model, or
      when its tokens are not a number at least zero and whole. */
  lemma EntryIsDropped(e: Entry)
    ensures ParseEntry(e) == None <==>
            || Spaces(e.requestId) || Spaces(e.user) || Spaces(e.project) || e.projectId == None
            || (Spaces(e.model) && Spaces(e.routeName))
            || (forall k: nat :: !Says(e.tokens, k))
  {
    StripSplits(e.requestId);
    StripSplits(e.user);
    StripSplits(e.project);
    StripSplits(e.model);
    StripSplits(e.routeName);
    match TokenCount(e.tokens)
    case Some(k) => assert Says(e.tokens, k);
    case None =>
      forall k: nat ensures !Says(e.tokens, k) {
        if Says(e.tokens, k) { SaysCount(e.tokens, k); }
      }
  }

  /** A parsed record names a request, a user, a project and a model, and never counts below zero; so the
      only check constraint it can violate is the one on the project identifier or the response code. */
  lemma ParsedIsComplete(e: Entry)
    requires ParseEntry(e).Some?
    ensures var r := ParseEntry(e).value;
            && r.requestId != "" && r.user != "" && r.shortcut != "" && r.model != "" && r.tokens >= 0
            && (r.projectId >= 0 && (r.responseCode.Some? ==> r.responseCode.value >= 0) ==> CheckRow(r) != Violates)
  {
  }

  /** A redelivered entry that carries its own start time parses to the same record at any later time. */
  lemma RedeliveryParsesAlike(e: Entry, later: int)
    ensures e.startTime.Some? ==> ParseEntry(e.(arrival := later)) == ParseEntry(e)
    ensures ParseEntry(e.(arrival := later)).Some? == ParseEntry(e).Some?
  {
  }

  // ---------- the code that changes the tables ----------

  class UsageStore {
    var events: map<string, UsageRecord>
    var daily: map<UsageKey, DailyRow>

    constructor ()
      ensures Tables() == Db(map[], map[]) && Agrees(Tables())
    {
      events, daily := map[], map[];
    }

    ghost function Tables(): Db
      reads this
    {
      Db(events, daily)
    }

    /** record_usage, alone in its transaction: any exception after the event insert undoes it. */
    method RecordUsage(r: UsageRecord) returns (outcome: Outcome)
      modifies this
      ensures (Tables(), outcome) == Record(old(Tables()), r)
    {
      if CheckRow(r) == OutOfRange { return Failed; }
      if CheckRow(r) == Violates || r.requestId in events { return Ignored; }
      var savedEvents := events;
      events := events[r.requestId := r];
      var created := Key(r) !in daily;
      if created {
        daily := daily[Key(r) := DailyRow(r.tokens, 1)];
      } else {
        var row := DailyRow(daily[Key(r)].tokens + r.tokens, daily[Key(r)].requests + 1);
        if !RowInRange(row) {
          events := savedEvents;
          return Failed;
        }
        daily := daily[Key(r) := row];
      }
      outcome := Recorded;
    }

    /** StreamAccessLogs; finished is false when an exception ended the stream. */
    method StreamAccessLogs(messages: seq<Message>) returns (finished: bool)
      modifies this
      ensures (Tables(), finished) == RecordAll(old(Tables()), Delivered(messages))
    {
      ghost var whole := RecordAll(Tables(), Delivered(messages));
      assert messages[0..] == messages;
      for m := 0 to |messages|
        invariant RecordAll(Tables(), Delivered(messages[m..])) == whole
      {
        NextMessage(messages, m);
        if messages[m].HttpLogs? {
          var entries := messages[m].entries;
          ghost var later := Delivered(messages[m + 1..]);
          for e := 0 to |entries|
            invariant RecordAll(Tables(), Parsed(entries[e..]) + later) == whole
          {
            NextEntry(Tables(), entries, e, later);
            var parsed := ParseEntry(entries[e]);
            if parsed.Some? {
              var outcome := RecordUsage(parsed.value);
              if outcome == Failed { return false; }
            }
          }
          assert Parsed(entries[|entries|..]) + later == later;
        }
      }
      finished := true;
    }
  }

  lemma NextMessage(messages: seq<Message>, m: nat)
    requires m < |messages|
    ensures Delivered(messages[m..]) ==
            if messages[m].HttpLogs? then Parsed(messages[m].entries[0..]) + Delivered(messages[m + 1..])
            else Delivered(messages[m + 1..])
  {
  }

  lemma NextEntry(db: Db, entries: seq<Entry>, e: nat, later: seq<UsageRecord>)
    requires e < |entries|
    ensures RecordAll(db, Parsed(entries[e..]) + later) ==
            match ParseEntry(entries[e])
            case None => RecordAll(db, Parsed(entries[e + 1..]) + later)
            case Some(r) =>
              var (next, outcome) := Record(db, r);
              if outcome == Failed then (db, false) else RecordAll(next, Parsed(entries[e + 1..]) + later)
  {
    ParsedHead(entries, e);
    match ParseEntry(entries[e])
    case None =>
    case Some(r) =>
      Regroup(r, Parsed(entries[e + 1..]), later);
      RecordAllHead(db, r, Parsed(entries[e + 1..]) + later);
  }

  lemma Regroup(r: UsageRecord, rest: seq<UsageRecord>, later: seq<UsageRecord>)
    ensures ([r] + rest) + later == [r] + (rest + later)
  {
  }

  lemma RecordAllHead(db: Db, r: UsageRecord, rest: seq<UsageRecord>)
    ensures RecordAll(db, [r] + rest) ==
            var (next, outcome) := Record(db, r); if outcome == Failed then (db, false) else RecordAll(next, rest)
  {
    assert ([r] + rest)[1..] == rest;
  }

  lemma ParsedHead(entries: seq<Entry>, e: nat)
    requires e < |entries|
    ensures Parsed(entries[e..]) ==
            match ParseEntry(entries[e]) case None => Parsed(entries[e + 1..]) case Some(r) => [r] + Parsed(entries[e + 1..])
  {
  }
}
