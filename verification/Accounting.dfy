/** From an accepted request to its usage: what the access log of the request is recorded as
    (apps/authz/views.py:109-118 with apps/usage/als.py:20-80). */
module Accounting {
  import opened Common
  import opened Policies
  import opened Kubernetes
  import opened DeployedRouting
  import opened Authz
  import Usage

  /** The parts of an access-log entry that are not request headers. */
  datatype Call = Call(requestId: string, routeName: string, tokens: Usage.TokenValue, responseCode: Option<int>,
                       startTime: Option<int>, arrival: int)

  function HeaderOr(headers: map<string, string>, name: string): string { if name in headers then headers[name] else "" }

  predicate AllDigits(s: string) { s != "" && forall i :: 0 <= i < |s| ==> IsDigit(s[i]) }

  /** int() on plain decimal digits. */
  function ReadInt(s: string): Option<int> { if AllDigits(s) then Some(DecValue(s)) else None }

  /** The entry the gateway logs for a call with these request headers. */
  function LogEntry(headers: map<string, string>, call: Call): Usage.Entry {
    Usage.Entry(
      call.requestId, HeaderOr(headers, "x-current-user"), HeaderOr(headers, "x-current-project"),
      ReadInt(HeaderOr(headers, PROJECT_ID_HEADER)), HeaderOr(headers, MODEL_HEADER), call.routeName,
      call.tokens, call.responseCode, call.startTime, call.arrival)
  }

  /** Not empty, and without white space at the ends. */
  ghost predicate Trimmed(s: string) { s != "" && !IsSpace(s[0]) && !IsSpace(s[|s| - 1]) }

  ghost predicate Complete(call: Call, user: string, shortcut: string, model: string, k: nat) {
    && Trimmed(call.requestId) && Trimmed(user) && Trimmed(shortcut) && Trimmed(model)
    && (call.tokens == Usage.NumberValue(k as real) || call.tokens == Usage.StringValue(Some(k)))
  }

  function TimeOf(call: Call): int { if call.startTime.Some? then call.startTime.value else call.arrival }

  lemma TrimmedIsPadded(s: string)
    requires Trimmed(s)
    ensures Padded(s, s)
  {
    assert Spaces("") && s == "" + s + "";
  }

  lemma LoggedAsRecorded(headers: map<string, string>, db: AuthDb, t: Token, model: string, call: Call, k: nat)
    requires NamesItsHolder(headers, db, t) && "x-ai-eg-model" in headers && headers["x-ai-eg-model"] == model
    requires Complete(call, t.user, db.projects[t.project].shortcut, model, k)
    ensures Usage.ParseEntry(LogEntry(headers, call)) ==
            Some(Usage.UsageRecord(call.requestId, t.user, t.project, db.projects[t.project].shortcut, model,
                                   Usage.Strip(call.routeName), k, call.responseCode, TimeOf(call)))
  {
    var e := LogEntry(headers, call);
    TrimmedIsPadded(call.requestId);
    TrimmedIsPadded(t.user);
    TrimmedIsPadded(db.projects[t.project].shortcut);
    TrimmedIsPadded(model);
    Usage.StripSplits(call.routeName);
    Usage.EntryIsRecordedAs(e, call.requestId, t.user, db.projects[t.project].shortcut, t.project, model,
                            Usage.Strip(call.routeName), k);
  }

  /** The log entry of an accepted call is recorded under the token's own user, project and the model asked
      for, with the tokens it says, whatever identity the client's own headers claimed. */
  lemma AcceptedCallIsCharged(cfg: Config, db: AuthDb, r: Resources, tokens: Tokens, hash: string -> string,
                              endpoint: string, header: string, path: string, c: Clock, request: map<string, string>,
                              call: Call, k: nat)
    requires Referential(db) && Current(r, cfg, db) && POLICY_KEY in Managed(r)
    requires Decide(db, tokens, hash, endpoint, header, path, c).Allowed? && "x-ai-eg-model" in request
    ensures var d := Decide(db, tokens, hash, endpoint, header, path, c);
            && d.hash in tokens && var t := tokens[d.hash];
            && t.project in db.projects && var shortcut := db.projects[t.project].shortcut;
            && r[POLICY_KEY].SecurityPolicy?
            && var parsed := Usage.ParseEntry(LogEntry(Forwarded(request, d, r[POLICY_KEY]), call));
            Complete(call, t.user, shortcut, request["x-ai-eg-model"], k) ==>
              && parsed.Some? && parsed.value.requestId == call.requestId && parsed.value.tokens == k
              && Usage.Key(parsed.value) ==
                 Usage.UsageKey(TimeOf(call) / 86400, t.user, t.project, shortcut, request["x-ai-eg-model"])
  {
    var d := Decide(db, tokens, hash, endpoint, header, path, c);
    PolicyInstalled(r, cfg, db);
    ForwardedHeaders(db, tokens, hash, endpoint, header, path, c, request, Names(cfg, Grants(Query(db))));
    var t, model := tokens[d.hash], request["x-ai-eg-model"];
    if Complete(call, t.user, db.projects[t.project].shortcut, model, k) {
      LoggedAsRecorded(Forwarded(request, d, r[POLICY_KEY]), db, t, model, call, k);
    }
  }

  /** Recording a call adds its tokens and one request to the sums of its own key and to no other's. */
  lemma RecordedOnce(tables: Usage.Db, r: Usage.UsageRecord, k: Usage.UsageKey)
    requires Usage.Agrees(tables) && Usage.Record(tables, r).1 == Usage.Recorded
    ensures var after := Usage.Record(tables, r).0;
            && Usage.SumOver(after.events, Usage.TokenWeight(k)) ==
               Usage.SumOver(tables.events, Usage.TokenWeight(k)) + (if k == Usage.Key(r) then r.tokens else 0)
            && Usage.SumOver(after.events, Usage.RequestWeight(k)) ==
               Usage.SumOver(tables.events, Usage.RequestWeight(k)) + (if k == Usage.Key(r) then 1 else 0)
            && (k in after.daily <==> k in tables.daily || k == Usage.Key(r))
            && (k in after.daily ==> after.daily[k].tokens == Usage.SumOver(after.events, Usage.TokenWeight(k)))
  {
    Usage.RecordKeepsAgreement(tables, r);
    Usage.SumAdd(tables.events, r, Usage.TokenWeight(k));
    Usage.SumAdd(tables.events, r, Usage.RequestWeight(k));
    Usage.KeysAdd(tables.events, r);
  }
}
