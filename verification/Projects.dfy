/** Saving projects and limit classes, joining projects and creating tokens, over whole runs
    (apps/authz/models.py:50-55, 94-130, 151-169, 292-319; apps/authz/forms.py:7-26). */
module Projects {
  import opened Common
  import opened Policies
  import opened Authz

  datatype MembershipStatus = Requested | ActiveMember

  datatype Membership = Membership(user: nat, project: nat, status: MembershipStatus)

  /** A submitted token form that has been found valid; checked is the clock it was validated by. */
  datatype TokenForm = TokenForm(owner: nat, superuser: bool, project: nat, days: int, checked: Clock)

  /** The tables a run works on, memberships being a table of rows, and the token forms found valid whose
      tokens are not created yet, each under the number of its request. */
  datatype State = State(db: AuthDb, memberships: seq<Membership>, tokens: Tokens, forms: map<nat, TokenForm>)

  datatype SaveError = Immutable | NotUnique

  // ---------- saving ----------

  /** The unique columns of another project do not clash with row's. */
  predicate UniqueAmong(db: AuthDb, pk: nat, row: ProjectRow) {
    forall other :: other in db.projects && other != pk ==>
      && db.projects[other].quotaKey != row.quotaKey
      && db.projects[other].shortcut != row.shortcut
      && (row.joinCodeHash == None || db.projects[other].joinCodeHash != row.joinCodeHash)
  }

  /** Project.save() of an instance with primary key pk. A stored, non-empty key must be kept. */
  function SaveProject(db: AuthDb, pk: nat, row: ProjectRow): Result<AuthDb, SaveError> {
    if pk in db.projects && db.projects[pk].quotaKey != "" && row.quotaKey != db.projects[pk].quotaKey then Err(Immutable)
    else if !UniqueAmong(db, pk, row) then Err(NotUnique)
    else Ok(db.(projects := db.projects[pk := row]))
  }

  /** Project.save() of an instance without primary key; generated is a new random key, and the
      database assigns pk. */
  function CreateProject(db: AuthDb, pk: nat, row: ProjectRow, generated: string): Result<AuthDb, SaveError>
    requires pk !in db.projects
  {
    var keyed := if row.quotaKey == "" then row.(quotaKey := generated) else row;
    if !UniqueAmong(db, pk, keyed) then Err(NotUnique) else Ok(db.(projects := db.projects[pk := keyed]))
  }

  /** ProjectLimitClass.save() of the class numbered pk. */
  function SaveClass(db: AuthDb, pk: nat, row: ClassRow): Result<AuthDb, SaveError> {
    if pk in db.classes && db.classes[pk].slug != "" && row.slug != db.classes[pk].slug then Err(Immutable)
    else if exists other :: other in db.classes && other != pk && (db.classes[other].slug == row.slug || db.classes[other].name == row.name)
    then Err(NotUnique)
    else Ok(db.(classes := db.classes[pk := row]))
  }

  ghost predicate UniqueKeys(db: AuthDb) {
    forall p, q :: p in db.projects && q in db.projects && db.projects[p].quotaKey == db.projects[q].quotaKey ==> p == q
  }

  ghost predicate SameCode(p: ProjectRow, q: ProjectRow) { p.joinCodeHash.Some? && p.joinCodeHash == q.joinCodeHash }

  /** The other unique columns: shortcuts and join codes of projects, names and slugs of classes. */
  ghost predicate UniqueNames(db: AuthDb) {
    && (forall p, q :: p in db.projects && q in db.projects && db.projects[p].shortcut == db.projects[q].shortcut ==> p == q)
    && (forall p, q :: p in db.projects && q in db.projects && SameCode(db.projects[p], db.projects[q]) ==> p == q)
    && (forall c, d :: c in db.classes && d in db.classes && db.classes[c].name == db.classes[d].name ==> c == d)
    && (forall c, d :: c in db.classes && d in db.classes && db.classes[c].slug == db.classes[d].slug ==> c == d)
  }

  /** A stored quota key is protected exactly when it is not empty: then no save changes it, and an empty
      one, which only an instance given its primary key by hand can have stored, can be replaced. */
  lemma KeyIsProtectedIffNonEmpty(db: AuthDb, pk: nat, free: string)
    requires pk in db.projects && UniqueAmong(db, pk, db.projects[pk])
    requires free != "" && forall p :: p in db.projects ==> db.projects[p].quotaKey != free
    ensures db.projects[pk].quotaKey != "" <==>
            forall row :: SaveProject(db, pk, row).Ok? ==>
              SaveProject(db, pk, row).value.projects[pk].quotaKey == db.projects[pk].quotaKey
  {
    if db.projects[pk].quotaKey == "" {
      var changed := SaveProject(db, pk, db.projects[pk].(quotaKey := free));
      assert changed.Ok? && changed.value.projects[pk].quotaKey == free;
    }
  }

  // ---------- joining ----------

  predicate ProjectActive(p: ProjectRow, today: int) { p.endDate == None || p.endDate.value >= today }

  /** Project.find_by_join_code; hashes of join codes are unique. */
  predicate JoinsBy(db: AuthDb, pk: nat, code: string, hash: string -> string, today: int) {
    code != "" && pk in db.projects && ProjectActive(db.projects[pk], today) && db.projects[pk].joinCodeHash == Some(hash(code))
  }

  /** The row of (user, project), or the length of the table. */
  function FindRow(rows: seq<Membership>, user: nat, project: nat): (n: nat)
    ensures n <= |rows| && (forall i :: 0 <= i < n ==> !(rows[i].user == user && rows[i].project == project))
    ensures n < |rows| ==> rows[n].user == user && rows[n].project == project
  {
    if rows == [] || (rows[0].user == user && rows[0].project == project) then 0
    else 1 + FindRow(rows[1..], user, project)
  }

  /** Project.join_user */
  function Join(rows: seq<Membership>, user: nat, project: nat, requiresApproval: bool): seq<Membership> {
    var n := FindRow(rows, user, project);
    var wanted := if requiresApproval then Requested else ActiveMember;
    if n == |rows| then rows + [Membership(user, project, wanted)]
    else if !requiresApproval && rows[n].status != ActiveMember then rows[n := rows[n].(status := ActiveMember)]
    else rows
  }

  ghost predicate OneRowEach(rows: seq<Membership>) {
    forall i, j :: 0 <= i < j < |rows| ==> rows[i].user != rows[j].user || rows[i].project != rows[j].project
  }

  predicate IsMember(rows: seq<Membership>, user: nat, project: nat) { Membership(user, project, ActiveMember) in rows }

  /** After a join the user has one row for the project: active if it was before or needs no approval, and
      otherwise requested; no other row changes. */
  lemma JoinResult(rows: seq<Membership>, user: nat, project: nat, requiresApproval: bool)
    requires OneRowEach(rows)
    ensures var after := Join(rows, user, project, requiresApproval);
            && OneRowEach(after)
            && Membership(user, project, if IsMember(rows, user, project) || !requiresApproval then ActiveMember else Requested) in after
            && (forall m :: m in after && (m.user != user || m.project != project) <==> m in rows && (m.user != user || m.project != project))
  {
    var n, after := FindRow(rows, user, project), Join(rows, user, project, requiresApproval);
    if IsMember(rows, user, project) {
      var i :| 0 <= i < |rows| && rows[i] == Membership(user, project, ActiveMember);
      assert i == n;
    }
    if n < |rows| {
      assert |after| == |rows| && rows[n] in rows;
      assert after[n] in after;
      match rows[n].status {
        case ActiveMember => assert rows[n] == Membership(user, project, ActiveMember);
        case Requested => assert rows[n] == Membership(user, project, Requested);
      }
      assert forall i :: 0 <= i < |rows| && i != n ==> after[i] == rows[i];
      forall m: Membership | m.user != user || m.project != project ensures m in after <==> m in rows {
        if m in rows { var i :| 0 <= i < |rows| && rows[i] == m; assert after[i] == m; }
        if m in after { var i :| 0 <= i < |after| && after[i] == m; assert rows[i] == m; }
      }
    }
  }

  /** Nobody joins a project but by its code while it runs. */
  lemma OnlyByCode(s: State, user: nat, code: string, pk: nat, today: int, env: Env)
    ensures var n := Apply(s, JoinByCode(user, code, pk, today), env);
            var fits := code != "" && pk in s.db.projects && s.db.projects[pk].joinCodeHash == Some(env.hash(code))
                        && (s.db.projects[pk].endDate.Some? ==> today <= s.db.projects[pk].endDate.value);
            n == if fits then s.(memberships := Join(s.memberships, user, pk, s.db.projects[pk].joinRequiresApproval)) else s
  {
  }

  class MembershipTable {
    var rows: seq<Membership>

    constructor ()
      ensures rows == []
    {
      rows := [];
    }

    /** Project.join_user: get or create, then activate. */
    method JoinUser(user: nat, project: nat, requiresApproval: bool) returns (status: MembershipStatus)
      requires OneRowEach(rows)
      modifies this
      ensures rows == Join(old(rows), user, project, requiresApproval) && OneRowEach(rows)
      ensures Membership(user, project, status) in rows
      ensures IsMember(old(rows), user, project) || !requiresApproval <==> status == ActiveMember
    {
      ghost var before := rows;
      JoinResult(rows, user, project, requiresApproval);
      status := if requiresApproval then Requested else ActiveMember;
      var n := FindRow(rows, user, project);
      if n == |rows| {
        rows := rows + [Membership(user, project, status)];
      } else {
        status := rows[n].status;
        if !requiresApproval && status != ActiveMember {
          status := ActiveMember;
          rows := rows[n := rows[n].(status := status)];
        }
        assert Membership(user, project, status) == rows[n];
        if IsMember(before, user, project) {
          var i :| 0 <= i < |before| && before[i] == Membership(user, project, ActiveMember);
          assert i == n;
        }
      }
    }
  }

  // ---------- runs ----------

  /** One operation. Creating a token takes two, validating the form and inserting the row, and anything may
      happen in between; expiring and created are the clock readings for the expiry and for the row. */
  datatype Action =
    | Save(pk: nat, row: ProjectRow)
    | Create(newPk: nat, newRow: ProjectRow, generated: string)
    | SaveLimitClass(classPk: nat, classRow: ClassRow)
    | JoinByCode(user: nat, code: string, joinProject: nat, today: int)
    | SetStatus(index: nat, status: MembershipStatus)
    | ValidateForm(request: nat, form: TokenForm)
    | CreateToken(formRequest: nat, name: string, tokenHash: string, expiring: int, created: int)
    | DeleteTokenRow(gone: string)

  /** Settings and uninterpreted hashing. */
  datatype Env = Env(maxLifetimeDays: int, hash: string -> string)

  /** StaticTokenForm: the project is offered to the user and the lifetime is within the configured bound. */
  predicate FormValid(s: State, f: TokenForm, env: Env) {
    && f.project in s.db.projects && ProjectActive(s.db.projects[f.project], f.checked.today)
    && (f.superuser || IsMember(s.memberships, f.owner, f.project))
    && 1 <= f.days <= env.maxLifetimeDays
  }

  /** A form is valid exactly if its project is stored and has not ended, the user is a superuser or an active
      member of it, and the lifetime is from one day to the maximum. */
  lemma FormValidIs(s: State, f: TokenForm, env: Env)
    ensures FormValid(s, f, env) <==>
            && f.project in s.db.projects
            && (s.db.projects[f.project].endDate.Some? ==> f.checked.today <= s.db.projects[f.project].endDate.value)
            && (f.superuser || Membership(f.owner, f.project, ActiveMember) in s.memberships)
            && 1 <= f.days && f.days <= env.maxLifetimeDays
  {
  }

  /** create_token for a form found valid earlier; the clock has not gone back since. */
  function Created(s: State, request: nat, name: string, h: string, expiring: int, created: int): State {
    if request in s.forms && s.forms[request].checked.now <= expiring <= created && h !in s.tokens then
      var f := s.forms[request];
      s.(tokens := s.tokens[h := Token(name, f.project, created, expiring + f.days * SECONDS_PER_DAY, 0, 0)],
         forms := s.forms - {request})
    else s
  }

  function Apply(s: State, a: Action, env: Env): State {
    match a
    case Save(pk, row) =>
      (match SaveProject(s.db, pk, row) case Err(_) => s case Ok(db) => s.(db := db))
    case Create(pk, row, generated) =>
      if pk in s.db.projects || generated == "" then s
      else (match CreateProject(s.db, pk, row, generated) case Err(_) => s case Ok(db) => s.(db := db))
    case SaveLimitClass(pk, row) =>
      (match SaveClass(s.db, pk, row) case Err(_) => s case Ok(db) => s.(db := db))
    case JoinByCode(user, code, pk, today) =>
      if JoinsBy(s.db, pk, code, env.hash, today)
      then s.(memberships := Join(s.memberships, user, pk, s.db.projects[pk].joinRequiresApproval)) else s
    case SetStatus(i, status) =>
      if i < |s.memberships| then s.(memberships := s.memberships[i := s.memberships[i].(status := status)]) else s
    case ValidateForm(request, form) =>
      if FormValid(s, form, env) && request !in s.forms then s.(forms := s.forms[request := form]) else s
    case CreateToken(request, name, h, expiring, created) => Created(s, request, name, h, expiring, created)
    case DeleteTokenRow(h) => s.(tokens := s.tokens - {h})
  }

  function Run(s: State, acts: seq<Action>, env: Env): State
    decreases |acts|
  {
    if acts == [] then s else Run(Apply(s, acts[0], env), acts[1..], env)
  }

  ghost predicate Inv(s: State, env: Env) {
    UniqueKeys(s.db) && UniqueNames(s.db) && OneRowEach(s.memberships) && Bounded(s, env)
  }

  /** Stored quota keys and class slugs, from one state to a later one; empty ones are not protected. */
  ghost predicate DbKeeps(db: AuthDb, later: AuthDb) {
    && (forall p :: p in db.projects && db.projects[p].quotaKey != "" ==>
          p in later.projects && later.projects[p].quotaKey == db.projects[p].quotaKey)
    && (forall c :: c in db.classes && db.classes[c].slug != "" ==>
          c in later.classes && later.classes[c].slug == db.classes[c].slug)
  }

  ghost predicate Keeps(s: State, n: State) { DbKeeps(s.db, n.db) }

  lemma StoredStaysUnique(db: AuthDb, pk: nat, row: ProjectRow)
    requires UniqueKeys(db) && UniqueNames(db) && UniqueAmong(db, pk, row)
    ensures UniqueKeys(db.(projects := db.projects[pk := row])) && UniqueNames(db.(projects := db.projects[pk := row]))
  {
    var n := db.(projects := db.projects[pk := row]);
    forall p, q | p in n.projects && q in n.projects && p != q
      ensures n.projects[p].quotaKey != n.projects[q].quotaKey && n.projects[p].shortcut != n.projects[q].shortcut
      ensures !SameCode(n.projects[p], n.projects[q])
    {
      assert p == pk || q == pk || (p in db.projects && q in db.projects);
    }
  }

  lemma SavedProjectKeeps(db: AuthDb, pk: nat, row: ProjectRow)
    requires UniqueKeys(db) && UniqueNames(db) && SaveProject(db, pk, row).Ok?
    ensures var saved := SaveProject(db, pk, row).value;
            UniqueKeys(saved) && UniqueNames(saved) && DbKeeps(db, saved)
  {
    StoredStaysUnique(db, pk, row);
  }

  lemma CreatedProjectKeeps(db: AuthDb, pk: nat, row: ProjectRow, generated: string)
    requires UniqueKeys(db) && UniqueNames(db) && pk !in db.projects && CreateProject(db, pk, row, generated).Ok?
    ensures var saved := CreateProject(db, pk, row, generated).value;
            UniqueKeys(saved) && UniqueNames(saved) && DbKeeps(db, saved)
  {
    StoredStaysUnique(db, pk, if row.quotaKey == "" then row.(quotaKey := generated) else row);
  }

  lemma SavedClassKeeps(db: AuthDb, pk: nat, row: ClassRow)
    requires UniqueKeys(db) && UniqueNames(db)
    ensures var saved := SaveClass(db, pk, row);
            saved.Ok? ==> UniqueKeys(saved.value) && UniqueNames(saved.value) && DbKeeps(db, saved.value)
  {
  }

  /** Saving keeps unique columns unique and stored keys and slugs as they are. */
  lemma SavingKeeps(s: State, a: Action, env: Env)
    requires UniqueKeys(s.db) && UniqueNames(s.db)
    ensures UniqueKeys(Apply(s, a, env).db) && UniqueNames(Apply(s, a, env).db) && Keeps(s, Apply(s, a, env))
  {
    match a
    case Save(pk, row) =>
      if SaveProject(s.db, pk, row).Ok? { SavedProjectKeeps(s.db, pk, row); }
    case Create(pk, row, generated) =>
      if pk !in s.db.projects && CreateProject(s.db, pk, row, generated).Ok? { CreatedProjectKeeps(s.db, pk, row, generated); }
    case SaveLimitClass(pk, row) => SavedClassKeeps(s.db, pk, row);
    case _ =>
  }

  lemma JoiningKeeps(s: State, a: Action, env: Env)
    requires OneRowEach(s.memberships)
    ensures OneRowEach(Apply(s, a, env).memberships)
  {
    if a.JoinByCode? && a.joinProject in s.db.projects {
      JoinResult(s.memberships, a.user, a.joinProject, s.db.projects[a.joinProject].joinRequiresApproval);
    }
  }

  /** Lifetimes are within the bound, those of tokens and those asked for. */
  ghost predicate Bounded(s: State, env: Env) {
    && (forall h :: h in s.tokens ==> s.tokens[h].expiresAt <= s.tokens[h].createdAt + env.maxLifetimeDays * SECONDS_PER_DAY)
    && (forall r :: r in s.forms ==> s.forms[r].days <= env.maxLifetimeDays)
  }

  lemma IssuingKeeps(s: State, a: Action, env: Env)
    requires Bounded(s, env)
    ensures Bounded(Apply(s, a, env), env)
  {
  }

  lemma ApplyKeepsInv(s: State, a: Action, env: Env)
    requires Inv(s, env)
    ensures Inv(Apply(s, a, env), env) && Keeps(s, Apply(s, a, env))
  {
    SavingKeeps(s, a, env);
    JoiningKeeps(s, a, env);
    IssuingKeeps(s, a, env);
  }

  lemma {:induction false} RunKeepsInv(s: State, acts: seq<Action>, env: Env)
    requires Inv(s, env)
    ensures Inv(Run(s, acts, env), env) && Keeps(s, Run(s, acts, env))
    decreases |acts|
  {
    if acts == [] {
    } else {
      ApplyKeepsInv(s, acts[0], env);
      RunKeepsInv(Apply(s, acts[0], env), acts[1..], env);
    }
  }

  const EMPTY: State := State(AuthDb(map[], map[]), [], map[], map[])

  /** Over any run from empty tables: one membership per user and project, and no token outlives the
      maximum lifetime counted from its creation. */
  lemma ReachableStatesAreSound(acts: seq<Action>, env: Env)
    ensures var s := Run(EMPTY, acts, env);
            && OneRowEach(s.memberships) && UniqueKeys(s.db) && UniqueNames(s.db)
            && (forall h, endDate, c :: h in s.tokens && Active(s.tokens[h], endDate, c) ==>
                  c.now < s.tokens[h].createdAt + env.maxLifetimeDays * 86400)
  {
    RunKeepsInv(EMPTY, acts, env);
  }

  lemma {:induction false} RunSnoc(s: State, acts: seq<Action>, a: Action, env: Env)
    ensures Run(s, acts + [a], env) == Apply(Run(s, acts, env), a, env)
    decreases |acts|
  {
    if acts == [] {
      assert acts + [a] == [a] && [a][1..] == [];
      assert Run(s, [a], env) == Run(Apply(s, a, env), [], env);
    } else {
      assert (acts + [a])[1..] == acts[1..] + [a];
      RunSnoc(Apply(s, acts[0], env), acts[1..], a, env);
    }
  }

  /** At position n of the run the form was found valid: it asked for a project that had not ended, on behalf
      of a superuser or of someone who was an active member then, for a lifetime within the bound. */
  ghost predicate Validated(acts: seq<Action>, env: Env, n: nat, f: TokenForm) {
    && n < |acts| && acts[n].ValidateForm? && acts[n].form == f
    && var s := Run(EMPTY, acts[..n], env);
    && f.project in s.db.projects && (s.db.projects[f.project].endDate.Some? ==> s.db.projects[f.project].endDate.value >= f.checked.today)
    && (f.superuser || Membership(f.owner, f.project, ActiveMember) in s.memberships)
    && 1 <= f.days <= env.maxLifetimeDays
  }

  /** At position m the token was created from the form. */
  ghost predicate Issued(acts: seq<Action>, m: nat, f: TokenForm, h: string, t: Token) {
    && m < |acts| && acts[m].CreateToken? && acts[m].tokenHash == h
    && t.project == f.project && t.createdAt == acts[m].created && f.checked.now <= acts[m].expiring <= t.createdAt
    && t.expiresAt == acts[m].expiring + f.days * 86400
  }

  lemma ValidatedLonger(front: seq<Action>, last: Action, env: Env, n: nat, f: TokenForm)
    requires Validated(front, env, n, f)
    ensures Validated(front + [last], env, n, f)
  {
    assert (front + [last])[..n] == front[..n] && (front + [last])[n] == front[n];
  }

  /** A form waiting for its token was found valid earlier in the run. */
  lemma {:induction false} FormsWereValidated(acts: seq<Action>, env: Env, r: nat)
    requires r in Run(EMPTY, acts, env).forms
    ensures exists n: nat :: Validated(acts, env, n, Run(EMPTY, acts, env).forms[r])
    decreases |acts|
  {
    if acts == [] {
    } else {
      var front, last := acts[..|acts| - 1], acts[|acts| - 1];
      var s := Run(EMPTY, front, env);
      assert acts == front + [last];
      RunSnoc(EMPTY, front, last, env);
      if r in s.forms {
        FormsWereValidated(front, env, r);
        var n: nat :| Validated(front, env, n, s.forms[r]);
        ValidatedLonger(front, last, env, n, s.forms[r]);
      } else {
        assert Validated(acts, env, |front|, Run(EMPTY, acts, env).forms[r]);
      }
    }
  }

  /** At no point of any run is a check accepted after the maximum lifetime since its token's creation, after the
      token's own expiry, or after the end date of its project. */
  lemma AcceptedInTime(acts: seq<Action>, env: Env, endpoint: string, header: string, path: string, c: Clock)
    requires Referential(Run(EMPTY, acts, env).db)
    ensures var s := Run(EMPTY, acts, env);
            var d := Decide(s.db, s.tokens, env.hash, endpoint, header, path, c);
            d.Allowed? ==>
              && d.hash in s.tokens && var t := s.tokens[d.hash];
              && c.now < t.expiresAt && c.now < t.createdAt + env.maxLifetimeDays * 86400
              && t.project in s.db.projects
              && (s.db.projects[t.project].endDate.Some? ==> c.today <= s.db.projects[t.project].endDate.value)
  {
    RunKeepsInv(EMPTY, acts, env);
  }

  /** Over any run, every stored token was created from a form that had been found valid at an earlier
      position: whoever it was issued to was entitled to it then, though perhaps no longer at its creation. */
  lemma {:induction false} TokensWereIssued(acts: seq<Action>, env: Env, h: string) returns (n: nat, m: nat, f: TokenForm)
    requires h in Run(EMPTY, acts, env).tokens
    ensures n < m && Validated(acts, env, n, f) && Issued(acts, m, f, h, Run(EMPTY, acts, env).tokens[h])
    decreases |acts|
  {
    var front, last := acts[..|acts| - 1], acts[|acts| - 1];
    var s := Run(EMPTY, front, env);
    assert acts == front + [last];
    RunSnoc(EMPTY, front, last, env);
    if h in s.tokens {
      n, m, f := TokensWereIssued(front, env, h);
      ValidatedLonger(front, last, env, n, f);
      assert acts[m] == front[m];
    } else {
      f, m := s.forms[last.formRequest], |front|;
      FormsWereValidated(front, env, last.formRequest);
      n :| Validated(front, env, n, f);
      ValidatedLonger(front, last, env, n, f);
    }
  }

  /** Revoked between the two: a token for somebody who is no member when it is created. */
  lemma RevokedBeforeCreation(s: State, env: Env, request: nat, f: TokenForm, index: nat, h: string)
    requires FormValid(s, f, env) && request !in s.forms && h !in s.tokens && !f.superuser && OneRowEach(s.memberships)
    requires index < |s.memberships| && s.memberships[index] == Membership(f.owner, f.project, ActiveMember)
    ensures var acts := [ValidateForm(request, f), SetStatus(index, Requested), CreateToken(request, "", h, f.checked.now, f.checked.now)];
            var n := Run(s, acts, env);
            h in n.tokens && n.tokens[h].project == f.project && !IsMember(n.memberships, f.owner, f.project)
  {
    var a, b, c := ValidateForm(request, f), SetStatus(index, Requested), CreateToken(request, "", h, f.checked.now, f.checked.now);
    assert [a, b, c][1..] == [b, c] && [b, c][1..] == [c] && [c][1..] == [];
    var one := Apply(s, a, env);
    var two := Apply(one, b, env);
    var three := Apply(two, c, env);
    assert Run(three, [], env) == three && Run(two, [c], env) == three && Run(one, [b, c], env) == three;
  }

  /** Two accepted checks, at any two points of any run and whatever their requests, return the same quota
      key exactly when their tokens belong to the same project, provided the first key is not empty; an
      empty key can be stored only with a primary key chosen by hand. */
  lemma QuotaKeyIdentifiesProject(before: seq<Action>, between: seq<Action>, env: Env,
                                  endpoint: string, header: string, path: string, c: Clock,
                                  header': string, path': string, c': Clock)
    requires Referential(Run(EMPTY, before, env).db) && Referential(Run(Run(EMPTY, before, env), between, env).db)
    ensures var s := Run(EMPTY, before, env);
            var n := Run(s, between, env);
            var d, e := Decide(s.db, s.tokens, env.hash, endpoint, header, path, c), Decide(n.db, n.tokens, env.hash, endpoint, header', path', c');
            d.Allowed? && e.Allowed? && d.identity.quotaKey != "" ==>
              d.hash in s.tokens && e.hash in n.tokens
              && (d.identity.quotaKey == e.identity.quotaKey <==> s.tokens[d.hash].project == n.tokens[e.hash].project)
  {
    RunKeepsInv(EMPTY, before, env);
    RunKeepsInv(Run(EMPTY, before, env), between, env);
  }

  /** No project is saved for the first time, under a primary key chosen by hand, with an empty quota key. */
  ghost predicate KeysGiven(s: State, acts: seq<Action>, env: Env)
    decreases |acts|
  {
    acts != [] ==>
      && (acts[0].Save? && acts[0].pk !in s.db.projects ==> acts[0].row.quotaKey != "")
      && KeysGiven(Apply(s, acts[0], env), acts[1..], env)
  }

  ghost predicate NoEmptyKeys(db: AuthDb) { forall pk :: pk in db.projects ==> db.projects[pk].quotaKey != "" }

  lemma ApplyKeepsKeysGiven(s: State, a: Action, env: Env)
    requires NoEmptyKeys(s.db) && (a.Save? && a.pk !in s.db.projects ==> a.row.quotaKey != "")
    ensures NoEmptyKeys(Apply(s, a, env).db)
  {
  }

  lemma {:induction false} KeysAreNeverEmpty(s: State, acts: seq<Action>, env: Env)
    requires NoEmptyKeys(s.db) && KeysGiven(s, acts, env)
    ensures NoEmptyKeys(Run(s, acts, env).db)
    decreases |acts|
  {
    if acts == [] {
    } else {
      ApplyKeepsKeysGiven(s, acts[0], env);
      KeysAreNeverEmpty(Apply(s, acts[0], env), acts[1..], env);
    }
  }

  /** In a run that never stores an empty key under a new primary key, two accepted checks, at any two points
      and whatever their requests, return the same quota key exactly when their tokens belong to the same
      project. */
  lemma QuotaKeysTellProjectsApart(before: seq<Action>, between: seq<Action>, env: Env,
                                   endpoint: string, header: string, path: string, c: Clock,
                                   header': string, path': string, c': Clock)
    requires Referential(Run(EMPTY, before, env).db) && Referential(Run(Run(EMPTY, before, env), between, env).db)
    requires KeysGiven(EMPTY, before, env)
    ensures var s := Run(EMPTY, before, env);
            var n := Run(s, between, env);
            var d, e := Decide(s.db, s.tokens, env.hash, endpoint, header, path, c), Decide(n.db, n.tokens, env.hash, endpoint, header', path', c');
            d.Allowed? && e.Allowed? ==>
              d.hash in s.tokens && e.hash in n.tokens
              && (d.identity.quotaKey == e.identity.quotaKey <==> s.tokens[d.hash].project == n.tokens[e.hash].project)
  {
    var s := Run(EMPTY, before, env);
    KeysAreNeverEmpty(EMPTY, before, env);
    QuotaKeyIdentifiesProject(before, between, env, endpoint, header, path, c, header', path', c');
    if Decide(s.db, s.tokens, env.hash, endpoint, header, path, c).Allowed? {
      AllowedIdentity(s.db, s.tokens, env.hash, endpoint, header, path, c);
    }
  }

  /** An action that leaves the end date of project pk alone. */
  ghost predicate KeepsDates(s: State, a: Action, env: Env, pk: nat) {
    pk in s.db.projects ==> Apply(s, a, env).db.projects[pk].endDate == s.db.projects[pk].endDate
  }

  ghost predicate RunKeepsDates(s: State, acts: seq<Action>, env: Env, pk: nat)
    decreases |acts|
  {
    acts != [] ==> pk in Apply(s, acts[0], env).db.projects && KeepsDates(s, acts[0], env, pk) && RunKeepsDates(Apply(s, acts[0], env), acts[1..], env, pk)
  }

  /** Deleted, and not issued anew. */
  ghost predicate NeverReissued(acts: seq<Action>, h: string) {
    forall i :: 0 <= i < |acts| && acts[i].CreateToken? ==> acts[i].tokenHash != h
  }

  predicate Valid(s: State, h: string, c: Clock) {
    h in s.tokens && s.tokens[h].project in s.db.projects
    && Active(s.tokens[h], s.db.projects[s.tokens[h].project].endDate, c)
  }

  /** As long as nobody edits its project's end date, a token that has stopped being valid never becomes
      valid again, whatever else happens and however late the clock is read. */
  lemma {:induction false} ValidityIsNeverRegained(s: State, acts: seq<Action>, env: Env, h: string, c: Clock, d: Clock)
    requires h in s.tokens ==> s.tokens[h].project in s.db.projects && RunKeepsDates(s, acts, env, s.tokens[h].project)
    requires NeverReissued(acts, h) && c.now <= d.now && c.today <= d.today && !Valid(s, h, c)
    ensures !Valid(Run(s, acts, env), h, d)
    decreases |acts|
  {
    if acts == [] {
    } else {
      var n := Apply(s, acts[0], env);
      assert h in n.tokens ==> h in s.tokens && n.tokens[h] == s.tokens[h];
      ValidityIsNeverRegained(n, acts[1..], env, h, c, d);
    }
  }
}
