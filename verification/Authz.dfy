/** The external-authorization endpoint: its decision, its identity headers and its counters
    (apps/authz/views.py:64-118, apps/authz/models.py:305-333). */
module Authz {
  import opened Common
  import opened Policies
  import opened PolicyRouting
  import opened Kubernetes
  import opened DeployedRouting
  import opened RouteNames
  import opened Endpoint

  const TOKEN_PREFIX := "gdk_"
  const MAX_COUNTER := 0x7FFF_FFFF_FFFF_FFFF

  /** A bearer token's row; times count seconds. */
  datatype Token = Token(user: string, project: nat, createdAt: int, expiresAt: int, allowed: int, denied: int)

  /** Token rows under their unique hash. */
  type Tokens = map<string, Token>

  /** The wall clock and the local date it shows. */
  datatype Clock = Clock(now: int, today: int)

  /** The active filter: not expired, and the project has not ended. */
  predicate Active(t: Token, endDate: Option<int>, c: Clock) {
    t.expiresAt > c.now && (endDate == None || endDate.value >= c.today)
  }

  datatype Decision =
    | Unauthorized
    | UnknownToken
    | Denied(hash: string)
    | Allowed(hash: string, identity: Identity)

  /** The values of the response headers of an accepted check. */
  datatype Identity = Identity(user: string, project: string, projectId: string, quotaKey: string, quotaClass: string)

  function WordLength(s: string): (n: nat)
    ensures n <= |s| && (s != "" && !IsSpace(s[0]) ==> n > 0)
  {
    if s == "" || IsSpace(s[0]) then 0 else 1 + WordLength(s[1..])
  }

  /** str.split() on ASCII whitespace. */
  function Words(s: string): seq<string>
    decreases |s|
  {
    if s == "" then []
    else if IsSpace(s[0]) then Words(s[1..])
    else [s[..WordLength(s)]] + Words(s[WordLength(s)..])
  }

  function RawToken(header: string): Option<string> {
    var parts := Words(header);
    if |parts| != 2 || Lower(parts[0]) != "bearer" || !(TOKEN_PREFIX <= parts[1]) then None else Some(parts[1])
  }

  /** StaticToken.find_valid, hash being the keyed digest of tokens. */
  function FindValid(db: AuthDb, tokens: Tokens, hash: string -> string, raw: string, c: Clock): Option<string> {
    if hash(raw) in tokens && tokens[hash(raw)].project in db.projects
       && Active(tokens[hash(raw)], db.projects[tokens[hash(raw)].project].endDate, c)
    then Some(hash(raw)) else None
  }

  function IdentityOf(db: AuthDb, t: Token): Identity
    requires t.project in db.projects && db.projects[t.project].limitClass.Some?
    requires db.projects[t.project].limitClass.value in db.classes
  {
    var p := db.projects[t.project];
    Identity(t.user, p.shortcut, Dec(t.project), p.quotaKey, db.classes[p.limitClass.value].slug)
  }

  function ResponseHeaders(i: Identity): map<string, string> {
    map["x-current-user" := i.user, "x-current-project" := i.project, PROJECT_ID_HEADER := i.projectId,
        QUOTA_KEY_HEADER := i.quotaKey, "x-current-quota-class" := i.quotaClass,
        "x-envoy-auth-headers-to-remove" := "authorization"]
  }

  /** What envoy_authz_check answers, apart from the counters. */
  function Decide(db: AuthDb, tokens: Tokens, hash: string -> string, endpoint: string, header: string, path: string, c: Clock): Decision
    requires Referential(db)
  {
    match RawToken(header)
    case None => Unauthorized
    case Some(raw) =>
      match FindValid(db, tokens, hash, raw, c)
      case None => UnknownToken
      case Some(h) =>
        if !Permits(db, tokens[h].project, endpoint, path) then Denied(h)
        else Allowed(h, IdentityOf(db, tokens[h]))
  }

  predicate Permits(db: AuthDb, pk: nat, endpoint: string, path: string)
    requires pk in db.projects
  {
    db.projects[pk].limitClass.Some? && MatchesApiEndpoint(endpoint, ProtectedUrl(endpoint, path))
  }

  /** record_allowed; None when the counter is full. An update of a deleted token changes nothing. */
  function OneMoreAllowed(tokens: Tokens, h: string): Option<Tokens> {
    if h !in tokens then Some(tokens)
    else if tokens[h].allowed >= MAX_COUNTER then None
    else Some(tokens[h := tokens[h].(allowed := tokens[h].allowed + 1)])
  }

  /** record_denied */
  function OneMoreDenied(tokens: Tokens, h: string): Option<Tokens> {
    if h !in tokens then Some(tokens)
    else if tokens[h].denied >= MAX_COUNTER then None
    else Some(tokens[h := tokens[h].(denied := tokens[h].denied + 1)])
  }

  /** The counter update that goes with a decision. */
  function Counted(tokens: Tokens, d: Decision): Option<Tokens> {
    match d
    case Allowed(h, _) => OneMoreAllowed(tokens, h)
    case Denied(h) => OneMoreDenied(tokens, h)
    case _ => Some(tokens)
  }

  class AuthzService {
    var tokens: Tokens
    const hash: string -> string
    const endpoint: string

    constructor (tokens: Tokens, hash: string -> string, endpoint: string)
      ensures this.tokens == tokens && this.hash == hash && this.endpoint == endpoint
    {
      this.tokens, this.hash, this.endpoint := tokens, hash, endpoint;
    }

    method RecordAllowed(h: string) returns (ok: bool)
      modifies this
      ensures ok == OneMoreAllowed(old(tokens), h).Some?
      ensures tokens == if ok then OneMoreAllowed(old(tokens), h).value else old(tokens)
    {
      if h in tokens {
        if tokens[h].allowed >= MAX_COUNTER { return false; }
        tokens := tokens[h := tokens[h].(allowed := tokens[h].allowed + 1)];
      }
      ok := true;
    }

    method RecordDenied(h: string) returns (ok: bool)
      modifies this
      ensures ok == OneMoreDenied(old(tokens), h).Some?
      ensures tokens == if ok then OneMoreDenied(old(tokens), h).value else old(tokens)
    {
      if h in tokens {
        if tokens[h].denied >= MAX_COUNTER { return false; }
        tokens := tokens[h := tokens[h].(denied := tokens[h].denied + 1)];
      }
      ok := true;
    }

    /** envoy_authz_check on an undisturbed database; None when the counter update raised. */
    method Check(db: AuthDb, header: string, path: string, c: Clock) returns (answer: Option<Decision>)
      requires Referential(db)
      modifies this
      ensures var d := Decide(db, old(tokens), hash, endpoint, header, path, c);
              var counted := Counted(old(tokens), d);
              && answer == (if counted.Some? then Some(d) else None)
              && tokens == (if counted.Some? then counted.value else old(tokens))
    {
      var raw := RawToken(header);
      if raw.None? { return Some(Unauthorized); }
      var found := FindValid(db, tokens, hash, raw.value, c);
      if found.None? { return Some(UnknownToken); }
      var h, token := found.value, tokens[found.value];
      var ok;
      if !Permits(db, token.project, endpoint, path) {
        ok := RecordDenied(h);
        return if ok then Some(Denied(h)) else None;
      }
      ok := RecordAllowed(h);
      return if ok then Some(Allowed(h, IdentityOf(db, token))) else None;
    }
  }

  // ---------- who is let in ----------

  ghost predicate Word(s: string) { s != "" && forall i :: 0 <= i < |s| ==> !IsSpace(s[i]) }

  lemma {:induction false} SkipSpaces(pad: string, s: string)
    requires Spaces(pad)
    ensures Words(pad + s) == Words(s)
  {
    if pad == "" {
      assert pad + s == s;
    } else {
      assert (pad + s)[1..] == pad[1..] + s;
      SkipSpaces(pad[1..], s);
    }
  }

  lemma {:induction false} WordEnds(w: string, rest: string)
    requires (forall i :: 0 <= i < |w| ==> !IsSpace(w[i])) && (rest == "" || IsSpace(rest[0]))
    ensures WordLength(w + rest) == |w|
  {
    if w == "" {
      assert w + rest == rest;
    } else {
      assert (w + rest)[1..] == w[1..] + rest;
      WordEnds(w[1..], rest);
    }
  }

  lemma FirstWord(w: string, rest: string)
    requires Word(w) && (rest == "" || IsSpace(rest[0]))
    ensures Words(w + rest) == [w] + Words(rest)
  {
    WordEnds(w, rest);
    assert (w + rest)[..|w|] == w && (w + rest)[|w|..] == rest;
  }

  /** "bearer" in any mixture of cases. */
  ghost predicate SaysBearer(scheme: string) {
    |scheme| == 6 && forall i :: 0 <= i < 6 ==> scheme[i] == "bearer"[i] || scheme[i] == "BEARER"[i]
  }

  lemma LowerIsBearer(scheme: string)
    ensures Lower(scheme) == "bearer" <==> SaysBearer(scheme)
  {
    if SaysBearer(scheme) {
      assert forall i :: 0 <= i < 6 ==> Lower(scheme)[i] == "bearer"[i];
    }
    if Lower(scheme) == "bearer" {
      forall i | 0 <= i < 6 ensures scheme[i] == "bearer"[i] || scheme[i] == "BEARER"[i] {
        assert LowerChar(scheme[i]) == "bearer"[i];
      }
    }
  }

  /** A header of two words, spaced in any way, carries its second word as a token exactly when the first is
      "bearer" in any case and the second has the token prefix. */
  lemma BearerToken(before: string, scheme: string, gap: string, token: string, after: string)
    requires Spaces(before) && Spaces(gap) && gap != "" && Spaces(after) && Word(scheme) && Word(token)
    ensures RawToken(before + (scheme + (gap + (token + after)))) ==
            if SaysBearer(scheme) && "gdk_" <= token then Some(token) else None
  {
    SkipSpaces(before, scheme + (gap + (token + after)));
    FirstWord(scheme, gap + (token + after));
    SkipSpaces(gap, token + after);
    FirstWord(token, after);
    SkipSpaces(after, "");
    assert after + "" == after;
    LowerIsBearer(scheme);
  }

  lemma {:induction false} LeadingWord(s: string) returns (w: string, rest: string)
    requires s != "" && !IsSpace(s[0])
    ensures s == w + rest && Word(w) && (rest == "" || IsSpace(rest[0]))
    decreases |s|
  {
    if |s| == 1 || IsSpace(s[1]) {
      w, rest := [s[0]], s[1..];
    } else {
      var v, r := LeadingWord(s[1..]);
      w, rest := [s[0]] + v, r;
    }
    assert s == [s[0]] + s[1..];
  }

  lemma {:induction false} SplitWords(s: string) returns (before: string, w: string, rest: string)
    ensures Spaces(before) && s == before + (w + rest) && (rest == "" || IsSpace(rest[0]))
    ensures w == "" ==> rest == "" && Words(s) == []
    ensures w != "" ==> Word(w) && Words(s) == [w] + Words(rest)
    decreases |s|
  {
    if s == "" {
      before, w, rest := "", "", "";
    } else if IsSpace(s[0]) {
      var b;
      b, w, rest := SplitWords(s[1..]);
      before := [s[0]] + b;
      assert s == [s[0]] + s[1..];
    } else {
      before := "";
      w, rest := LeadingWord(s);
      FirstWord(w, rest);
      assert s == "" + (w + rest);
    }
  }

  /** A header carries a token only if it is of that form: two words and nothing else. */
  lemma TokenHeader(header: string) returns (before: string, scheme: string, gap: string, token: string, after: string)
    requires RawToken(header).Some?
    ensures Spaces(before) && Spaces(gap) && gap != "" && Spaces(after) && Word(scheme) && Word(token)
    ensures header == before + (scheme + (gap + (token + after)))
    ensures RawToken(header) == Some(token) && SaysBearer(scheme) && "gdk_" <= token
  {
    var rest, tail, none;
    before, scheme, rest := SplitWords(header);
    gap, token, tail := SplitWords(rest);
    after, none, tail := SplitWords(tail);
    assert Words(header) == [scheme, token];
    assert none == "" && after + ("" + "") == after;
    LowerIsBearer(scheme);
  }

  /** A stored token whose lifetime has not ended and whose project has not ended either. */
  ghost predicate Accepts(db: AuthDb, tokens: Tokens, h: string, c: Clock) {
    && h in tokens && tokens[h].project in db.projects
    && tokens[h].expiresAt > c.now
    && (db.projects[tokens[h].project].endDate == None || db.projects[tokens[h].project].endDate.value >= c.today)
  }

  /** The four answers. Without a token in the header: 401. With one that is unknown, expired or of a project
      that has ended: 403, uncounted. Otherwise the request is let in exactly if the project has a limit class
      and the path continues the endpoint's path segment by segment, and else denied and counted. */
  lemma AllowedExactlyWhen(db: AuthDb, tokens: Tokens, hash: string -> string, value: string, header: string, path: string, c: Clock)
    requires Referential(db) && ApiEndpoint(value).Ok?
    ensures UrlSplit(ApiEndpoint(value).value).Some?
    ensures var e := ApiEndpoint(value).value;
            var d, below := Decide(db, tokens, hash, e, header, path, c), Segments(UrlSplit(e).value.path) <= Segments(PathPart("/" + path));
            match RawToken(header)
            case None => d == Unauthorized
            case Some(raw) =>
              && (d == UnknownToken <==> !Accepts(db, tokens, hash(raw), c))
              && (d == Denied(hash(raw)) <==>
                  Accepts(db, tokens, hash(raw), c) && !(db.projects[tokens[hash(raw)].project].limitClass.Some? && below))
              && (d.Allowed? <==>
                  Accepts(db, tokens, hash(raw), c) && db.projects[tokens[hash(raw)].project].limitClass.Some? && below)
              && (d.Allowed? ==> d.hash == hash(raw))
  {
    MatchIsSegmentPrefix(value, path);
  }

  /** A counter update raises exactly if the counter it would raise stands at 9223372036854775807. */
  lemma CounterIsFull(tokens: Tokens, d: Decision)
    ensures Counted(tokens, d) == None <==>
            || (d.Allowed? && d.hash in tokens && tokens[d.hash].allowed >= 9223372036854775807)
            || (d.Denied? && d.hash in tokens && tokens[d.hash].denied >= 9223372036854775807)
  {
  }

  // ---------- end to end ----------

  /** The headers the gateway routes by: the client's, overwritten by those of the answer that the
      authorization policy forwards. */
  function Forwarded(request: map<string, string>, d: Decision, policy: Document): map<string, string>
    requires d.Allowed? && policy.SecurityPolicy?
  {
    var answer := ResponseHeaders(d.identity);
    request + map h | h in answer && h in policy.headersToBackend :: answer[h]
  }

  /** What the gateway and the access log read from the forwarded headers of an accepted request. */
  ghost predicate NamesItsHolder(headers: map<string, string>, db: AuthDb, t: Token) {
    && t.project in db.projects && var limitClass := db.projects[t.project].limitClass;
    && limitClass.Some? && limitClass.value in db.classes
    && "x-current-quota-class" in headers && headers["x-current-quota-class"] == db.classes[limitClass.value].slug
    && "x-current-user" in headers && headers["x-current-user"] == t.user
    && "x-current-project" in headers && headers["x-current-project"] == db.projects[t.project].shortcut
    && "x-current-quota-key" in headers && headers["x-current-quota-key"] == db.projects[t.project].quotaKey
    && "x-current-project-id" in headers && headers["x-current-project-id"] == Dec(t.project)
    && DecValue(Dec(t.project)) == t.project
  }

  /** A header of the answer that the policy lists arrives with the answer's value, whatever the client sent. */
  lemma ForwardedValue(request: map<string, string>, d: Decision, names: seq<string>, i: nat)
    requires d.Allowed? && i < |SecurityPolicyDocument(names).headersToBackend|
    ensures var headers := Forwarded(request, d, SecurityPolicyDocument(names));
            var h := SecurityPolicyDocument(names).headersToBackend[i];
            h in ResponseHeaders(d.identity) ==> h in headers && headers[h] == ResponseHeaders(d.identity)[h]
  {
  }

  lemma ModelIsKept(request: map<string, string>, d: Decision, names: seq<string>)
    requires d.Allowed? && MODEL_HEADER in request
    ensures var headers := Forwarded(request, d, SecurityPolicyDocument(names));
            MODEL_HEADER in headers && headers[MODEL_HEADER] == request[MODEL_HEADER]
  {
  }

  lemma AnswerValues(i: Identity)
    ensures var answer := ResponseHeaders(i);
            && "x-current-user" in answer && answer["x-current-user"] == i.user
            && "x-current-project" in answer && answer["x-current-project"] == i.project
            && PROJECT_ID_HEADER in answer && answer[PROJECT_ID_HEADER] == i.projectId
            && QUOTA_KEY_HEADER in answer && answer[QUOTA_KEY_HEADER] == i.quotaKey
            && "x-current-quota-class" in answer && answer["x-current-quota-class"] == i.quotaClass
            && "x-envoy-auth-headers-to-remove" in answer && answer["x-envoy-auth-headers-to-remove"] == "authorization"
  {
  }

  lemma AllowedIdentity(db: AuthDb, tokens: Tokens, hash: string -> string, endpoint: string, header: string, path: string, c: Clock)
    requires Referential(db) && Decide(db, tokens, hash, endpoint, header, path, c).Allowed?
    ensures var d := Decide(db, tokens, hash, endpoint, header, path, c);
            && d.hash in tokens && var t := tokens[d.hash];
            && t.project in db.projects && db.projects[t.project].limitClass.Some?
            && db.projects[t.project].limitClass.value in db.classes
            && d.identity == IdentityOf(db, t)
  {
  }

  lemma ForwardedHeaders(db: AuthDb, tokens: Tokens, hash: string -> string, endpoint: string, header: string, path: string,
                         c: Clock, request: map<string, string>, names: seq<string>)
    requires Referential(db) && Decide(db, tokens, hash, endpoint, header, path, c).Allowed?
    ensures var d := Decide(db, tokens, hash, endpoint, header, path, c);
            var headers := Forwarded(request, d, SecurityPolicyDocument(names));
            && d.hash in tokens && NamesItsHolder(headers, db, tokens[d.hash])
            && (MODEL_HEADER in request ==> MODEL_HEADER in headers && headers[MODEL_HEADER] == request[MODEL_HEADER])
  {
    var d := Decide(db, tokens, hash, endpoint, header, path, c);
    AllowedIdentity(db, tokens, hash, endpoint, header, path, c);
    AnswerValues(d.identity);
    ForwardedValue(request, d, names, 0);
    ForwardedValue(request, d, names, 1);
    ForwardedValue(request, d, names, 2);
    ForwardedValue(request, d, names, 3);
    ForwardedValue(request, d, names, 4);
    DecRoundTrip(tokens[d.hash].project);
    if MODEL_HEADER in request { ModelIsKept(request, d, names); }
  }

  /** From the token to its quota in the deployed cluster: whatever headers the client sends, an accepted
      request names the token's own holder and project. If the project's class limits its model, and the
      model prevails among those its route name collides with, exactly one managed route takes it, under the
      authorization policy, and exactly one quota is charged there: the class's limit for that model, counted
      per quota key of the project in the unit the route reports. Any other request reaches no route. */
  lemma AcceptedRequestIsMetered(cfg: Config, db: AuthDb, r: Resources, tokens: Tokens, hash: string -> string,
                                 endpoint: string, header: string, path: string, c: Clock, request: map<string, string>)
    requires Referential(db) && Usable(cfg.naming) && Current(r, cfg, db) && POLICY_KEY in Managed(r)
    requires Decide(db, tokens, hash, endpoint, header, path, c).Allowed? && MODEL_HEADER in request
    ensures r[POLICY_KEY].SecurityPolicy? && !r[POLICY_KEY].failOpen && r[POLICY_KEY].recomputeRoute
    ensures var d := Decide(db, tokens, hash, endpoint, header, path, c);
            var headers, model := Forwarded(request, d, r[POLICY_KEY]), request[MODEL_HEADER];
            && d.hash in tokens && NamesItsHolder(headers, db, tokens[d.hash])
            && var pk := tokens[d.hash].project;
            if model in LimitsOf(db, pk) && Prevails(cfg, db, pk, model) then Metered(cfg, db, r, headers, pk, model)
            else RoutesFor(r, headers) == {}
  {
    var d := Decide(db, tokens, hash, endpoint, header, path, c);
    var model, pk := request[MODEL_HEADER], tokens[d.hash].project;
    PolicyInstalled(r, cfg, db);
    ForwardedHeaders(db, tokens, hash, endpoint, header, path, c, request, Names(cfg, Grants(Query(db))));
    var headers := Forwarded(request, d, r[POLICY_KEY]);
    assert RequestFor(headers, pk, model);
    RequestReachesDeployedRoute(r, cfg, db, headers, pk, model);
    if model in LimitsOf(db, pk) && Prevails(cfg, db, pk, model) { RouteIsMetered(cfg, db, r, headers, pk, model); }
  }

  /** Exactly one managed route takes the request, under authorization, and charges it to its own limit. */
  ghost predicate Metered(cfg: Config, db: AuthDb, r: Resources, headers: map<string, string>, pk: nat, model: string)
    requires model in LimitsOf(db, pk)
  {
    var g := GrantOf(db, pk, model);
    && Backed(cfg, g)
    && RoutesFor(r, headers) == {RouteKey(cfg, g)}
    && RouteKey(cfg, g) in r && r[RouteKey(cfg, g)] == RouteDocument(cfg, g) && r[RouteKey(cfg, g)].backend == cfg.backends[model]
    && POLICY_KEY in r && Name(cfg, g) in Targets(r[POLICY_KEY])
    && QuotasOn(r, Name(cfg, g)) == {QuotaKey(cfg, g)}
    && QuotaKey(cfg, g) in r && r[QuotaKey(cfg, g)] == QuotaDocument(cfg, g) && ChargesItsLimit(cfg, db, pk, model)
  }

  lemma RouteIsMetered(cfg: Config, db: AuthDb, r: Resources, headers: map<string, string>, pk: nat, model: string)
    requires Referential(db) && Usable(cfg.naming) && Current(r, cfg, db) && RequestFor(headers, pk, model)
    requires model in LimitsOf(db, pk) && Prevails(cfg, db, pk, model)
    ensures Metered(cfg, db, r, headers, pk, model)
  {
    var g := GrantOf(db, pk, model);
    RequestReachesDeployedRoute(r, cfg, db, headers, pk, model);
    DeployedRouteCarriesItsQuota(r, cfg, db, pk, model);
    assert RouteKey(cfg, g) in RoutesFor(r, headers);
    RoutesArePoliced(r, cfg, db, RouteKey(cfg, g));
  }

  // ---------- counters under interleaving ----------

  /** A check between its query and its counter update; other checks, deletions and edits may come between. */
  datatype CheckState = Asking(header: string, path: string) | Decided(decision: Decision) | Answered(decision: Decision) | Crashed

  datatype Server = Server(tokens: Tokens, checks: seq<CheckState>)

  datatype Event = Look(i: nat, db: AuthDb, clock: Clock) | Count(i: nat) | DeleteToken(hash: string)

  function Step(s: Server, hash: string -> string, endpoint: string, e: Event): Server {
    match e
    case Look(i, db, clock) =>
      if i < |s.checks| && s.checks[i].Asking? && Referential(db) then
        var a := s.checks[i];
        s.(checks := s.checks[i := Decided(Decide(db, s.tokens, hash, endpoint, a.header, a.path, clock))])
      else s
    case Count(i) =>
      if i < |s.checks| && s.checks[i].Decided? then
        match Counted(s.tokens, s.checks[i].decision)
        case None => s.(checks := s.checks[i := Crashed])
        case Some(ts) => Server(ts, s.checks[i := Answered(s.checks[i].decision)])
      else s
    case DeleteToken(h) => s.(tokens := s.tokens - {h})
  }

  function Run(s: Server, hash: string -> string, endpoint: string, es: seq<Event>): Server
    decreases |es|
  {
    if es == [] then s else Run(Step(s, hash, endpoint, es[0]), hash, endpoint, es[1..])
  }

  function AllowedAnswer(h: string): CheckState -> int {
    (c: CheckState) => if c.Answered? && c.decision.Allowed? && c.decision.hash == h then 1 else 0
  }

  function DeniedAnswer(h: string): CheckState -> int {
    (c: CheckState) => if c.Answered? && c.decision.Denied? && c.decision.hash == h then 1 else 0
  }

  /** What a token's counters exceed its answers by; it never changes. */
  ghost predicate Books(s: Server, h: string, allowed: int, denied: int) {
    h in s.tokens ==>
      && s.tokens[h].allowed == allowed + Sum(s.checks, AllowedAnswer(h))
      && s.tokens[h].denied == denied + Sum(s.checks, DeniedAnswer(h))
  }

  lemma StepKeepsBooks(s: Server, hash: string -> string, endpoint: string, e: Event, h: string, allowed: int, denied: int)
    requires Books(s, h, allowed, denied)
    ensures Books(Step(s, hash, endpoint, e), h, allowed, denied)
  {
    var n := Step(s, hash, endpoint, e);
    if (e.Look? || e.Count?) && e.i < |s.checks| && n != s {
      SumUpdate(s.checks, e.i, n.checks[e.i], AllowedAnswer(h));
      SumUpdate(s.checks, e.i, n.checks[e.i], DeniedAnswer(h));
    }
  }

  lemma {:induction false} RunKeepsBooks(s: Server, hash: string -> string, endpoint: string, es: seq<Event>, h: string, allowed: int, denied: int)
    requires Books(s, h, allowed, denied)
    ensures Books(Run(s, hash, endpoint, es), h, allowed, denied)
    decreases |es|
  {
    if es == [] {
    } else {
      StepKeepsBooks(s, hash, endpoint, es[0], h, allowed, denied);
      RunKeepsBooks(Step(s, hash, endpoint, es[0]), hash, endpoint, es[1..], h, allowed, denied);
    }
  }

  lemma {:induction false} NoAnswersYet(checks: seq<CheckState>, h: string)
    requires forall i :: 0 <= i < |checks| ==> checks[i].Asking?
    ensures Sum(checks, AllowedAnswer(h)) == 0 && Sum(checks, DeniedAnswer(h)) == 0
  {
    if checks == [] {
    } else {
      NoAnswersYet(checks[1..], h);
    }
  }

  /** However checks, edits and deletions interleave, a surviving token's counters have grown by exactly the
      200 answers and the 403 answers that were given for it. */
  lemma CountersCountAnswers(s: Server, hash: string -> string, endpoint: string, es: seq<Event>, h: string)
    requires h in s.tokens && forall i :: 0 <= i < |s.checks| ==> s.checks[i].Asking?
    ensures var n := Run(s, hash, endpoint, es);
            h in n.tokens ==>
              && n.tokens[h].allowed == s.tokens[h].allowed + Sum(n.checks, AllowedAnswer(h))
              && n.tokens[h].denied == s.tokens[h].denied + Sum(n.checks, DeniedAnswer(h))
  {
    NoAnswersYet(s.checks, h);
    RunKeepsBooks(s, hash, endpoint, es, h, s.tokens[h].allowed, s.tokens[h].denied);
  }
}
