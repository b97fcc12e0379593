/** The admin pages that edit policies, and when they ask for a redeployment
    (apps/authz/admin.py:175-187, 196-226, 299-321; apps/authz/models.py:48-78, 218-250). */
module Admin {
  import opened Common
  import opened Policies
  import opened PolicyRouting
  import Projects

  // ---------- what is submitted ----------

  /** A submitted project form. limitClass is None when the form has no such field, as for administrators
      who are not superusers. */
  datatype ProjectForm = ProjectForm(
    name: string, shortcut: string, endDate: Option<int>, limitClass: Option<Option<nat>>, joinRequiresApproval: bool,
    joinCode: string, clearJoinCode: bool)

  /** The inline form of a stored model limit. */
  datatype StoredForm = StoredForm(was: string, model: string, limit: LimitRow, delete: bool)

  datatype Entered = Blank | Filled(model: string, limit: LimitRow)

  /** The inline form for one more model limit. */
  datatype ExtraForm = ExtraForm(entered: Entered, delete: bool)

  datatype ClassForm = ClassForm(name: string, slug: string, stored: seq<StoredForm>, extra: seq<ExtraForm>)

  datatype LimitRef = LimitRef(limitClass: nat, model: string)

  datatype Op =
    | AddProject(newPk: nat, newForm: ProjectForm, generated: string)
    | ChangeProject(pk: nat, form: ProjectForm)
    | DeleteProjects(pks: set<nat>)
    | SubmitClass(classPk: nat, classForm: ClassForm)
    | DeleteClasses(classPks: set<nat>)
    | SubmitLimit(was: Option<LimitRef>, now: LimitRef, limit: LimitRow)
    | DeleteLimits(refs: set<LimitRef>)

  /** A refused submission changes nothing; an accepted one may carry the redeployment warning. */
  datatype Answer = Refused | Accepted(warned: bool)

  const MAX_DAILY := 0x7FFF_FFFF_FFFF_FFFF
  const MAX_PARALLEL := 0x7FFF_FFFF

  predicate ValidLimit(model: string, limit: LimitRow) {
    && 0 < |model| <= 200 && 0 < limit.daily <= MAX_DAILY
    && (limit.parallel.Some? ==> 0 < limit.parallel.value <= MAX_PARALLEL)
  }

  predicate ValidProject(f: ProjectForm) {
    && 0 < |f.name| <= 120 && 0 < |f.shortcut| <= 32
    && forall i :: 0 <= i < |f.shortcut| ==> ShortcutChar(f.shortcut[i])
  }

  predicate ShortcutChar(c: char) { 'a' <= c <= 'z' || 'A' <= c <= 'Z' || IsDigit(c) || c == '_' || c == '-' }

  predicate ValidSlug(s: string) {
    && 0 < |s| <= 48 && 'a' <= s[0] <= 'z'
    && forall i :: 0 <= i < |s| ==> 'a' <= s[i] <= 'z' || IsDigit(s[i]) || s[i] == '-'
  }

  // ---------- projects ----------

  function Edited(row: ProjectRow, f: ProjectForm, hash: string -> string): ProjectRow {
    row.(name := f.name, shortcut := f.shortcut, endDate := f.endDate, joinRequiresApproval := f.joinRequiresApproval,
         limitClass := if f.limitClass.Some? then f.limitClass.value else row.limitClass,
         joinCodeHash := if f.joinCode != "" then Some(hash(f.joinCode)) else if f.clearJoinCode then None else row.joinCodeHash)
  }

  const BLANK_PROJECT := ProjectRow("", "", None, None, true, "", None)

  /** The class chosen on the form exists. */
  predicate ChoiceExists(db: AuthDb, f: ProjectForm) {
    f.limitClass.Some? && f.limitClass.value.Some? ==> f.limitClass.value.value in db.classes
  }

  /** Saving a project from its form; the key generated and the primary key assigned matter only when adding. */
  function AfterProject(db: AuthDb, pk: nat, f: ProjectForm, generated: string, hash: string -> string): (AuthDb, Answer) {
    if !ValidProject(f) || !ChoiceExists(db, f) then (db, Refused)
    else
      var change := pk in db.projects;
      var saved := if change then Projects.SaveProject(db, pk, Edited(db.projects[pk], f, hash))
                   else Projects.CreateProject(db, pk, Edited(BLANK_PROJECT, f, hash), generated);
      match saved
      case Err(_) => (db, Refused)
      case Ok(next) =>
        (next, Accepted(!change || (f.limitClass.Some? && f.limitClass.value != db.projects[pk].limitClass)))
  }

  /** Only project pk has changed: it has the values of the form, keeps its quota key or is given the generated
      one, keeps its limit class if the form has no such field and its join code unless the form sets or
      clears it. */
  ghost predicate ProjectSaved(before: AuthDb, after: AuthDb, pk: nat, f: ProjectForm, generated: string, hash: string -> string) {
    && after.classes == before.classes && pk in after.projects
    && (forall p :: p != pk ==> (p in after.projects <==> p in before.projects) && (p in after.projects ==> after.projects[p] == before.projects[p]))
    && var row, was := after.projects[pk], if pk in before.projects then before.projects[pk] else BLANK_PROJECT.(quotaKey := generated);
    && row.name == f.name && row.shortcut == f.shortcut && row.endDate == f.endDate && row.joinRequiresApproval == f.joinRequiresApproval
    && row.quotaKey == was.quotaKey
    && (f.limitClass == None ==> row.limitClass == was.limitClass) && (f.limitClass.Some? ==> row.limitClass == f.limitClass.value)
    && (f.joinCode != "" ==> row.joinCodeHash == Some(hash(f.joinCode)))
    && (f.joinCode == "" && f.clearJoinCode ==> row.joinCodeHash == None)
    && (f.joinCode == "" && !f.clearJoinCode ==> row.joinCodeHash == was.joinCodeHash)
  }

  /** The form is filled in properly, its class exists, and no other project has its shortcut, its join code
      or its quota key. */
  ghost predicate ProjectAcceptable(db: AuthDb, pk: nat, f: ProjectForm, generated: string, hash: string -> string) {
    && 1 <= |f.name| <= 120 && 1 <= |f.shortcut| <= 32
    && (forall c :: c in f.shortcut ==> 'a' <= c <= 'z' || 'A' <= c <= 'Z' || '0' <= c <= '9' || c == '_' || c == '-')
    && (f.limitClass.Some? && f.limitClass.value.Some? ==> f.limitClass.value.value in db.classes)
    && var was := if pk in db.projects then db.projects[pk] else BLANK_PROJECT.(quotaKey := generated);
    var code := if f.joinCode != "" then Some(hash(f.joinCode)) else if f.clearJoinCode then None else was.joinCodeHash;
    forall p :: p in db.projects && p != pk ==>
      && db.projects[p].shortcut != f.shortcut && db.projects[p].quotaKey != was.quotaKey
      && (code.Some? ==> db.projects[p].joinCodeHash != code)
  }

  // ---------- limit classes ----------

  /** One inline form of a stored limit saved; None when the model is invalid or already limited. */
  function ApplyStored(limits: map<string, LimitRow>, f: StoredForm): Option<map<string, LimitRow>> {
    if f.was !in limits then None
    else if f.delete then Some(limits - {f.was})
    else if !ValidLimit(f.model, f.limit) || (f.model != f.was && f.model in limits) then None
    else Some((limits - {f.was})[f.model := f.limit])
  }

  function ApplyExtra(limits: map<string, LimitRow>, f: ExtraForm): Option<map<string, LimitRow>> {
    if f.entered.Blank? || f.delete then Some(limits)
    else if !ValidLimit(f.entered.model, f.entered.limit) || f.entered.model in limits then None
    else Some(limits[f.entered.model := f.entered.limit])
  }

  function ApplyForms(limits: map<string, LimitRow>, stored: seq<StoredForm>, extra: seq<ExtraForm>): Option<map<string, LimitRow>>
    decreases |stored| + |extra|
  {
    if stored != [] then
      (match ApplyStored(limits, stored[0]) case None => None case Some(next) => ApplyForms(next, stored[1..], extra))
    else if extra != [] then
      (match ApplyExtra(limits, extra[0]) case None => None case Some(next) => ApplyForms(next, stored, extra[1..]))
    else Some(limits)
  }

  predicate KeptStored(f: StoredForm) { !f.delete }

  predicate KeptExtra(f: ExtraForm) { f.entered.Filled? && !f.delete }

  /** What the pages check before anything is saved, against the limits they were loaded with: each stored
      limit has at most one form, and every form that is kept has a valid limit of a model that no other row,
      not even one about to be deleted or renamed, and no other kept form has. */
  predicate FormsetValid(limits: map<string, LimitRow>, stored: seq<StoredForm>, extra: seq<ExtraForm>) {
    && (forall i :: 0 <= i < |stored| ==> stored[i].was in limits)
    && (forall i, j :: 0 <= i < j < |stored| ==> stored[i].was != stored[j].was)
    && (forall i :: 0 <= i < |stored| && KeptStored(stored[i]) ==>
          ValidLimit(stored[i].model, stored[i].limit) && (stored[i].model == stored[i].was || stored[i].model !in limits))
    && (forall i :: 0 <= i < |extra| && KeptExtra(extra[i]) ==>
          ValidLimit(extra[i].entered.model, extra[i].entered.limit) && extra[i].entered.model !in limits)
    && (forall i, j :: 0 <= i < j < |stored| && KeptStored(stored[i]) && KeptStored(stored[j]) ==> stored[i].model != stored[j].model)
    && (forall i, j :: 0 <= i < j < |extra| && KeptExtra(extra[i]) && KeptExtra(extra[j]) ==> extra[i].entered.model != extra[j].entered.model)
    && (forall i, j :: 0 <= i < |stored| && 0 <= j < |extra| && KeptStored(stored[i]) && KeptExtra(extra[j]) ==>
          stored[i].model != extra[j].entered.model)
  }

  /** Validation, then saving. */
  function SavedForms(limits: map<string, LimitRow>, stored: seq<StoredForm>, extra: seq<ExtraForm>): Option<map<string, LimitRow>> {
    if FormsetValid(limits, stored, extra) then ApplyForms(limits, stored, extra) else None
  }

  ghost predicate Untouched(stored: seq<StoredForm>, m: string) { forall i :: 0 <= i < |stored| ==> stored[i].was != m }

  /** The limits after saving: those of the kept forms, and those stored before that have no form. */
  ghost predicate FormsResult(limits: map<string, LimitRow>, stored: seq<StoredForm>, extra: seq<ExtraForm>, next: map<string, LimitRow>) {
    && (forall i :: 0 <= i < |stored| && KeptStored(stored[i]) ==> stored[i].model in next && next[stored[i].model] == stored[i].limit)
    && (forall i :: 0 <= i < |extra| && KeptExtra(extra[i]) ==>
          extra[i].entered.model in next && next[extra[i].entered.model] == extra[i].entered.limit)
    && (forall m :: m in limits && Untouched(stored, m) ==> m in next && next[m] == limits[m])
    && (forall m :: m in next ==>
          || (exists i :: 0 <= i < |stored| && KeptStored(stored[i]) && stored[i].model == m)
          || (exists i :: 0 <= i < |extra| && KeptExtra(extra[i]) && extra[i].entered.model == m)
          || (m in limits && Untouched(stored, m)))
  }

  lemma ExtraStep(limits: map<string, LimitRow>, extra: seq<ExtraForm>)
    requires FormsetValid(limits, [], extra) && extra != []
    ensures ApplyExtra(limits, extra[0]).Some?
    ensures FormsetValid(ApplyExtra(limits, extra[0]).value, [], extra[1..])
  {
    var rest := extra[1..];
    assert forall i :: 0 <= i < |rest| ==> rest[i] == extra[i + 1];
  }

  lemma ExtraResult(limits: map<string, LimitRow>, extra: seq<ExtraForm>, next: map<string, LimitRow>)
    requires FormsetValid(limits, [], extra) && extra != [] && ApplyExtra(limits, extra[0]).Some?
    requires FormsResult(ApplyExtra(limits, extra[0]).value, [], extra[1..], next)
    ensures FormsResult(limits, [], extra, next)
  {
    var rest, one := extra[1..], ApplyExtra(limits, extra[0]).value;
    assert forall i :: 0 <= i < |rest| ==> rest[i] == extra[i + 1];
    forall m | m in next
      ensures (exists i :: 0 <= i < |extra| && KeptExtra(extra[i]) && extra[i].entered.model == m) || m in limits
    {
      if i :| 0 <= i < |rest| && KeptExtra(rest[i]) && rest[i].entered.model == m { assert extra[i + 1] == rest[i]; }
    }
    forall i | 0 <= i < |extra| && KeptExtra(extra[i])
      ensures extra[i].entered.model in next && next[extra[i].entered.model] == extra[i].entered.limit
    {
      if i > 0 { assert extra[i] == rest[i - 1]; }
    }
  }

  lemma StoredStep(limits: map<string, LimitRow>, stored: seq<StoredForm>, extra: seq<ExtraForm>)
    requires FormsetValid(limits, stored, extra) && stored != []
    ensures ApplyStored(limits, stored[0]).Some?
    ensures FormsetValid(ApplyStored(limits, stored[0]).value, stored[1..], extra)
  {
    var rest := stored[1..];
    assert forall i :: 0 <= i < |rest| ==> rest[i] == stored[i + 1];
  }

  lemma StoredResult(limits: map<string, LimitRow>, stored: seq<StoredForm>, extra: seq<ExtraForm>, next: map<string, LimitRow>)
    requires FormsetValid(limits, stored, extra) && stored != [] && ApplyStored(limits, stored[0]).Some?
    requires FormsResult(ApplyStored(limits, stored[0]).value, stored[1..], extra, next)
    ensures FormsResult(limits, stored, extra, next)
  {
    var rest, one := stored[1..], ApplyStored(limits, stored[0]).value;
    assert forall i :: 0 <= i < |rest| ==> rest[i] == stored[i + 1];
    assert Untouched(rest, stored[0].model) || !KeptStored(stored[0]);
    forall m | m in next && !(exists i :: 0 <= i < |extra| && KeptExtra(extra[i]) && extra[i].entered.model == m)
      ensures (exists i :: 0 <= i < |stored| && KeptStored(stored[i]) && stored[i].model == m) || (m in limits && Untouched(stored, m))
    {
      if i :| 0 <= i < |rest| && KeptStored(rest[i]) && rest[i].model == m { assert stored[i + 1] == rest[i]; }
    }
    forall i | 0 <= i < |stored| && KeptStored(stored[i]) ensures stored[i].model in next && next[stored[i].model] == stored[i].limit {
      if i > 0 { assert stored[i] == rest[i - 1]; }
    }
    forall m | m in limits && Untouched(stored, m) ensures m in next && next[m] == limits[m] {
      assert stored[0].was != m && m in one;
    }
  }

  /** A formset that passes validation is saved without a conflict, and leaves exactly what its forms say. */
  lemma {:induction false} SavedFormsAre(limits: map<string, LimitRow>, stored: seq<StoredForm>, extra: seq<ExtraForm>)
    requires FormsetValid(limits, stored, extra)
    ensures ApplyForms(limits, stored, extra).Some?
    ensures FormsResult(limits, stored, extra, ApplyForms(limits, stored, extra).value)
    decreases |stored| + |extra|
  {
    if stored != [] {
      StoredStep(limits, stored, extra);
      SavedFormsAre(ApplyStored(limits, stored[0]).value, stored[1..], extra);
      StoredResult(limits, stored, extra, ApplyForms(limits, stored, extra).value);
    } else if extra != [] {
      ExtraStep(limits, extra);
      SavedFormsAre(ApplyExtra(limits, extra[0]).value, [], extra[1..]);
      ExtraResult(limits, extra, ApplyForms(limits, stored, extra).value);
    } else {
      assert stored == [] && extra == [];
    }
  }

  /** form.has_changed(), against the limits the page was loaded with. */
  predicate StoredChanged(limits: map<string, LimitRow>, f: StoredForm) {
    f.delete || f.was !in limits || f.model != f.was || f.limit != limits[f.was]
  }

  predicate ExtraChanged(f: ExtraForm) { f.entered.Filled? || f.delete }

  /** any(formset.has_changed() for formset in formsets) */
  predicate FormsetChanged(limits: map<string, LimitRow>, f: ClassForm) {
    || (exists i :: 0 <= i < |f.stored| && StoredChanged(limits, f.stored[i]))
    || (exists i :: 0 <= i < |f.extra| && ExtraChanged(f.extra[i]))
  }

  function ClassLimits(db: AuthDb, pk: nat): map<string, LimitRow> {
    if pk in db.classes then db.classes[pk].limits else map[]
  }

  function AfterClass(db: AuthDb, pk: nat, f: ClassForm): (AuthDb, Answer) {
    var limits := ClassLimits(db, pk);
    match SavedForms(limits, f.stored, f.extra)
    case None => (db, Refused)
    case Some(next) =>
      if !ValidSlug(f.slug) || !(0 < |f.name| <= 120) then (db, Refused)
      else
        match Projects.SaveClass(db, pk, ClassRow(f.name, f.slug, next))
        case Err(_) => (db, Refused)
        case Ok(saved) => (saved, Accepted(FormsetChanged(limits, f)))
  }

  /** on_delete=PROTECT: a class with projects stays. */
  predicate InUse(db: AuthDb, pks: set<nat>) {
    exists p :: p in db.projects && db.projects[p].limitClass.Some? && db.projects[p].limitClass.value in pks
  }

  function AfterDeletingClasses(db: AuthDb, pks: set<nat>): (AuthDb, Answer) {
    if InUse(db, pks) then (db, Refused)
    else (db.(classes := db.classes - pks), Accepted(exists c :: c in pks && ClassLimits(db, c) != map[]))
  }

  // ---------- single limits ----------

  function Dropped(db: AuthDb, refs: set<LimitRef>): AuthDb {
    db.(classes := map c | c in db.classes ::
          db.classes[c].(limits := map m | m in db.classes[c].limits && LimitRef(c, m) !in refs :: db.classes[c].limits[m]))
  }

  function AfterLimit(db: AuthDb, was: Option<LimitRef>, now: LimitRef, limit: LimitRow): (AuthDb, Answer) {
    var without := if was.Some? then Dropped(db, {was.value}) else db;
    if !ValidLimit(now.model, limit) || now.limitClass !in without.classes
       || now.model in without.classes[now.limitClass].limits
       || (was.Some? && was.value.model !in ClassLimits(db, was.value.limitClass)) then (db, Refused)
    else (Inserted(without, now, limit), Accepted(true))
  }

  function Inserted(db: AuthDb, now: LimitRef, limit: LimitRow): AuthDb
    requires now.limitClass in db.classes
  {
    var row := db.classes[now.limitClass];
    db.(classes := db.classes[now.limitClass := row.(limits := row.limits[now.model := limit])])
  }

  /** The model limit stored under a class and a model name. */
  function Stored(db: AuthDb, ref: LimitRef): Option<LimitRow> {
    if ref.model in ClassLimits(db, ref.limitClass) then Some(ClassLimits(db, ref.limitClass)[ref.model]) else None
  }

  /** Two databases that differ at most in model limits. */
  ghost predicate SameButLimits(a: AuthDb, b: AuthDb) {
    && a.projects == b.projects && a.classes.Keys == b.classes.Keys
    && forall c :: c in a.classes ==> a.classes[c].name == b.classes[c].name && a.classes[c].slug == b.classes[c].slug
  }

  lemma DroppedLimits(db: AuthDb, refs: set<LimitRef>)
    ensures SameButLimits(db, Dropped(db, refs))
    ensures forall ref :: Stored(Dropped(db, refs), ref) == if ref in refs then None else Stored(db, ref)
  {
  }

  lemma InsertedLimit(db: AuthDb, now: LimitRef, limit: LimitRow)
    requires now.limitClass in db.classes
    ensures SameButLimits(db, Inserted(db, now, limit))
    ensures forall ref :: Stored(Inserted(db, now, limit), ref) == if ref == now then Some(limit) else Stored(db, ref)
  {
  }

  /** A limit can be saved if it is valid, its class exists, the row edited exists, and no other row has its
      class and model. */
  ghost predicate Savable(db: AuthDb, was: Option<LimitRef>, now: LimitRef, limit: LimitRow) {
    && ValidLimit(now.model, limit) && now.limitClass in db.classes
    && (was.Some? ==> Stored(db, was.value).Some?)
    && (Stored(db, now).Some? ==> was == Some(now))
  }

  /** The limit is stored where it should be, the row it was edited from is gone unless it is the same, and
      every other limit is as before. */
  ghost predicate LimitMoved(before: AuthDb, after: AuthDb, was: Option<LimitRef>, now: LimitRef, limit: LimitRow) {
    && Stored(after, now) == Some(limit)
    && (forall ref :: ref != now && was == Some(ref) ==> Stored(after, ref) == None)
    && (forall ref :: ref != now && was != Some(ref) ==> Stored(after, ref) == Stored(before, ref))
  }

  /** Saving a limit is accepted exactly when it can be saved, and then always warns and moves that limit alone. */
  lemma SavedLimit(db: AuthDb, was: Option<LimitRef>, now: LimitRef, limit: LimitRow)
    ensures var (next, answer) := AfterLimit(db, was, now, limit);
            && answer == (if Savable(db, was, now, limit) then Accepted(true) else Refused)
            && (answer.Refused? ==> next == db)
            && SameButLimits(db, next)
            && (answer.Accepted? ==> LimitMoved(db, next, was, now, limit))
  {
    var without := if was.Some? then Dropped(db, {was.value}) else db;
    if was.Some? { DroppedLimits(db, {was.value}); }
    SavableOnceDropped(db, without, was, now);
    if AfterLimit(db, was, now, limit).1.Accepted? { InsertedLimit(without, now, limit); }
  }

  /** With the row edited out of the way, its place is free exactly when no other row has taken it. */
  lemma SavableOnceDropped(db: AuthDb, without: AuthDb, was: Option<LimitRef>, now: LimitRef)
    requires without == if was.Some? then Dropped(db, {was.value}) else db
    ensures now.limitClass in without.classes <==> now.limitClass in db.classes
    ensures now.limitClass in without.classes ==>
              (now.model in without.classes[now.limitClass].limits <==> Stored(db, now).Some? && was != Some(now))
  {
  }

  // ---------- any operation ----------

  function Perform(db: AuthDb, op: Op, hash: string -> string): (AuthDb, Answer) {
    match op
    case AddProject(pk, f, generated) =>
      if pk in db.projects then (db, Refused) else AfterProject(db, pk, f, generated, hash)
    case ChangeProject(pk, f) =>
      if pk !in db.projects then (db, Refused) else AfterProject(db, pk, f, "", hash)
    case DeleteProjects(pks) => (db.(projects := db.projects - pks), Accepted(false))
    case SubmitClass(pk, f) => AfterClass(db, pk, f)
    case DeleteClasses(pks) => AfterDeletingClasses(db, pks)
    case SubmitLimit(was, now, limit) => AfterLimit(db, was, now, limit)
    case DeleteLimits(refs) => (Dropped(db, refs), Accepted(true))
  }

  /** The documents a deployment would install now. */
  ghost function Compiled(cfg: Config, db: AuthDb): Result<seq<Document>, ()> { Compile(cfg, Grants(Query(db))) }

  // ---------- what the documents depend on ----------

  ghost function Projected(db: AuthDb, pks: seq<nat>): seq<PolicyProject> {
    seq(|pks|, i requires 0 <= i < |pks| => PolicyProject(pks[i], ModelLimits(LimitsOf(db, pks[i]))))
  }

  ghost function Ascending(pks: set<nat>): seq<nat> {
    NatIsTotalOrder();
    Sorted<nat>(pks, NatLeq)
  }

  lemma GrantsOne(p: PolicyProject)
    ensures Grants([p]) == ProjectGrants(p.pk, p.limits)
  {
    assert [p][..0] == [];
    assert Grants([p]) == Grants([]) + ProjectGrants(p.pk, p.limits);
  }

  lemma GrantsSnoc(ps: seq<PolicyProject>, p: PolicyProject)
    ensures Grants(ps + [p]) == Grants(ps) + ProjectGrants(p.pk, p.limits)
  {
    assert (ps + [p])[..|ps|] == ps;
  }

  lemma {:induction false} GrantsHead(p: PolicyProject, ps: seq<PolicyProject>)
    ensures Grants([p] + ps) == ProjectGrants(p.pk, p.limits) + Grants(ps)
    decreases |ps|
  {
    if ps == [] {
      assert [p] + ps == [p];
      GrantsOne(p);
    } else {
      var front, last := ps[..|ps| - 1], ps[|ps| - 1];
      assert [p] + ps == ([p] + front) + [last] && ps == front + [last];
      GrantsSnoc([p] + front, last);
      GrantsSnoc(front, last);
      GrantsHead(p, front);
    }
  }

  lemma AscendingHead(pks: set<nat>) returns (m: nat)
    requires pks != {}
    ensures m in pks && (forall x :: x in pks ==> m <= x) && Ascending(pks) == [m] + Ascending(pks - {m})
  {
    NatIsTotalOrder();
    LeastExists<nat>(pks, NatLeq);
    m :| IsLeast<nat>(m, pks, NatLeq);
    forall x | x in pks ensures m <= x { assert NatLeq(m, x); }
    SortedHead<nat>(pks, m, NatLeq);
  }

  lemma AscendingStart(pks: set<nat>, m: nat)
    requires m in pks && forall x :: x in pks ==> m <= x
    ensures Ascending(pks) == [m] + Ascending(pks - {m})
  {
  }

  function Limited(db: AuthDb, pks: set<nat>): set<nat> { set pk | pk in pks && LimitsOf(db, pk) != map[] }

  lemma NoLimitsNoGrants(pk: nat)
    ensures ProjectGrants(pk, ModelLimits(map[])) == []
  {
  }

  /** The grants of the listed projects. */
  ghost function GrantsOf(db: AuthDb, pks: seq<nat>): seq<Grant> { Grants(Projected(db, pks)) }

  lemma ProjectedHead(db: AuthDb, m: nat, pks: seq<nat>)
    ensures Projected(db, [m] + pks) == [PolicyProject(m, ModelLimits(LimitsOf(db, m)))] + Projected(db, pks)
  {
  }

  lemma GrantsOfHead(db: AuthDb, m: nat, pks: seq<nat>)
    ensures GrantsOf(db, [m] + pks) == ProjectGrants(m, ModelLimits(LimitsOf(db, m))) + GrantsOf(db, pks)
  {
    var p := PolicyProject(m, ModelLimits(LimitsOf(db, m)));
    ProjectedHead(db, m, pks);
    GrantsHead(p, Projected(db, pks));
  }

  /** Projects whose class limits nothing contribute nothing. */
  lemma {:induction false} OnlyLimitedCount(db: AuthDb, pks: set<nat>)
    ensures GrantsOf(db, Ascending(pks)) == GrantsOf(db, Ascending(Limited(db, pks)))
    decreases |pks|
  {
    if pks == {} {
      assert Limited(db, pks) == {};
    } else {
      var m := AscendingHead(pks);
      OnlyLimitedCount(db, pks - {m});
      OneMoreCounted(db, pks, m);
    }
  }

  lemma OneMoreCounted(db: AuthDb, pks: set<nat>, m: nat)
    requires m in pks && (forall x :: x in pks ==> m <= x) && Ascending(pks) == [m] + Ascending(pks - {m})
    requires GrantsOf(db, Ascending(pks - {m})) == GrantsOf(db, Ascending(Limited(db, pks - {m})))
    ensures GrantsOf(db, Ascending(pks)) == GrantsOf(db, Ascending(Limited(db, pks)))
  {
    GrantsOfHead(db, m, Ascending(pks - {m}));
    if LimitsOf(db, m) == map[] {
      assert Limited(db, pks) == Limited(db, pks - {m});
      NoLimitsNoGrants(m);
    } else {
      assert Limited(db, pks) - {m} == Limited(db, pks - {m});
      AscendingStart(Limited(db, pks), m);
      GrantsOfHead(db, m, Ascending(Limited(db, pks - {m})));
    }
  }

  lemma SameLimitsSameGrants(a: AuthDb, b: AuthDb)
    requires Referential(a) && Referential(b) && forall pk :: LimitsOf(a, pk) == LimitsOf(b, pk)
    ensures Grants(Query(a)) == Grants(Query(b))
  {
    QueryUnfolds(a);
    QueryUnfolds(b);
    SameLimited(a, b);
    SameProjection(a, b, Ascending(Limited(a, ClassedProjects(a))));
  }

  lemma SameLimited(a: AuthDb, b: AuthDb)
    requires Referential(a) && Referential(b) && forall pk :: LimitsOf(a, pk) == LimitsOf(b, pk)
    ensures Limited(a, ClassedProjects(a)) == Limited(b, ClassedProjects(b))
  {
  }

  lemma SameProjection(a: AuthDb, b: AuthDb, pks: seq<nat>)
    requires forall pk :: LimitsOf(a, pk) == LimitsOf(b, pk)
    ensures GrantsOf(a, pks) == GrantsOf(b, pks)
  {
    assert Projected(a, pks) == Projected(b, pks);
  }

  lemma QueryUnfolds(db: AuthDb)
    ensures Grants(Query(db)) == GrantsOf(db, Ascending(Limited(db, ClassedProjects(db))))
  {
    assert Query(db) == Projected(db, Ascending(ClassedProjects(db)));
    OnlyLimitedCount(db, ClassedProjects(db));
  }

  /** The compiled grants are a function of the limits that apply to each project, and reveal them: nothing
      else in the tables, neither names nor dates nor which class grants a limit, matters. */
  lemma GrantsAreTheLimits(a: AuthDb, b: AuthDb)
    requires Referential(a) && Referential(b)
    ensures Grants(Query(a)) == Grants(Query(b)) <==> forall pk :: LimitsOf(a, pk) == LimitsOf(b, pk)
  {
    if forall pk :: LimitsOf(a, pk) == LimitsOf(b, pk) {
      SameLimitsSameGrants(a, b);
    }
    if Grants(Query(a)) == Grants(Query(b)) {
      QueryGrants(a);
      QueryGrants(b);
      forall pk ensures LimitsOf(a, pk) == LimitsOf(b, pk) { SameGrantsSameLimits(a, b, pk); }
    }
  }

  lemma SameGrantsSameLimits(a: AuthDb, b: AuthDb, pk: nat)
    requires forall g: Grant ::
               (g.limit.model in LimitsOf(a, g.pk) && g == GrantOf(a, g.pk, g.limit.model)) <==>
               (g.limit.model in LimitsOf(b, g.pk) && g == GrantOf(b, g.pk, g.limit.model))
    ensures LimitsOf(a, pk) == LimitsOf(b, pk)
  {
    forall m ensures m in LimitsOf(a, pk) <==> m in LimitsOf(b, pk)
             ensures m in LimitsOf(a, pk) ==> LimitsOf(a, pk)[m] == LimitsOf(b, pk)[m]
    {
      if m in LimitsOf(a, pk) { assert GrantOf(a, pk, m).limit.model == m; }
      if m in LimitsOf(b, pk) { assert GrantOf(b, pk, m).limit.model == m; }
    }
  }

  // ---------- the warning ----------

  lemma {:induction false} UnchangedFormsKeep(limits: map<string, LimitRow>, stored: seq<StoredForm>, extra: seq<ExtraForm>)
    requires forall i :: 0 <= i < |stored| ==> !StoredChanged(limits, stored[i])
    requires forall i :: 0 <= i < |extra| ==> !ExtraChanged(extra[i])
    requires ApplyForms(limits, stored, extra).Some?
    ensures ApplyForms(limits, stored, extra) == Some(limits)
    decreases |stored| + |extra|
  {
    if stored != [] {
      assert !StoredChanged(limits, stored[0]);
      assert (limits - {stored[0].was})[stored[0].was := limits[stored[0].was]] == limits;
      UnchangedFormsKeep(limits, stored[1..], extra);
    } else if extra != [] {
      assert !ExtraChanged(extra[0]);
      UnchangedFormsKeep(limits, stored, extra[1..]);
    }
  }

  lemma PerformKeepsReferences(db: AuthDb, op: Op, hash: string -> string)
    requires Referential(db)
    ensures Referential(Perform(db, op, hash).0)
    ensures Perform(db, op, hash).1.Refused? ==> Perform(db, op, hash).0 == db
  {
  }

  lemma QuietClassKeepsLimits(db: AuthDb, pk: nat, f: ClassForm, p: nat)
    requires Referential(db) && AfterClass(db, pk, f).1 == Accepted(false)
    ensures LimitsOf(AfterClass(db, pk, f).0, p) == LimitsOf(db, p)
  {
    UnchangedFormsKeep(ClassLimits(db, pk), f.stored, f.extra);
  }

  /** Every operation but the deletion of projects that changes what would be deployed says so. */
  lemma NoWarningNoChange(cfg: Config, db: AuthDb, op: Op, hash: string -> string)
    requires Referential(db) && !op.DeleteProjects?
    requires Perform(db, op, hash).1 != Accepted(true)
    ensures Compiled(cfg, Perform(db, op, hash).0) == Compiled(cfg, db)
  {
    var next := Perform(db, op, hash).0;
    PerformKeepsReferences(db, op, hash);
    forall p ensures LimitsOf(next, p) == LimitsOf(db, p) {
      if op.SubmitClass? && Perform(db, op, hash).1 == Accepted(false) {
        QuietClassKeepsLimits(db, op.classPk, op.classForm, p);
      }
    }
    GrantsAreTheLimits(db, next);
  }

  /** Deleting projects never warns. The result of compiling stays the same exactly when no class limits
      anything for the projects deleted or, if it was a failure, when a project that stays has a limited model
      without a backend. */
  lemma DeletedProjectsAreSilent(cfg: Config, db: AuthDb, pks: set<nat>, hash: string -> string)
    requires Referential(db)
    ensures var (next, answer) := Perform(db, DeleteProjects(pks), hash);
            && answer == Accepted(false)
            && (Compiled(cfg, next) == Compiled(cfg, db) <==>
                if Compiled(cfg, db).Ok? then forall pk :: pk in pks ==> LimitsOf(db, pk) == map[]
                else exists pk, model :: pk !in pks && model in LimitsOf(db, pk) && model !in cfg.backends)
  {
    if Compiled(cfg, db).Ok? {
      DeletionFromCompiling(cfg, db, pks, hash);
    } else {
      DeletionFromFailing(cfg, db, pks, hash);
    }
  }

  lemma DeletionFromFailing(cfg: Config, db: AuthDb, pks: set<nat>, hash: string -> string)
    requires Referential(db)
    ensures Compiled(cfg, Perform(db, DeleteProjects(pks), hash).0) == Err(()) <==>
            exists pk, model :: pk !in pks && model in LimitsOf(db, pk) && model !in cfg.backends
  {
    var next := Perform(db, DeleteProjects(pks), hash).0;
    CompileSucceeds(cfg, next);
    assert forall pk :: LimitsOf(next, pk) == if pk in pks then map[] else LimitsOf(db, pk);
  }

  lemma DeletionFromCompiling(cfg: Config, db: AuthDb, pks: set<nat>, hash: string -> string)
    requires Referential(db) && Compiled(cfg, db).Ok?
    ensures Compiled(cfg, Perform(db, DeleteProjects(pks), hash).0) == Compiled(cfg, db) <==>
            forall pk :: pk in pks ==> LimitsOf(db, pk) == map[]
  {
    var next := Perform(db, DeleteProjects(pks), hash).0;
    GrantsAreTheLimits(db, next);
    if Compiled(cfg, next) == Compiled(cfg, db) {
      SameDocumentsSameGrants(cfg, db, next);
      forall pk | pk in pks ensures LimitsOf(db, pk) == map[] { assert LimitsOf(next, pk) == map[]; }
    }
  }

  /** A project with a class of these limits. */
  function OneProject(limits: map<string, LimitRow>): AuthDb {
    AuthDb(map[1 := ProjectRow("p", "p", None, None, true, "qk", Some(1))], map[1 := ClassRow("c", "c", limits)])
  }

  lemma OneProjectLimits(limits: map<string, LimitRow>, pk: nat)
    ensures LimitsOf(OneProject(limits), pk) == if pk == 1 then limits else map[]
  {
  }

  lemma OneProjectCompiles(cfg: Config, limits: map<string, LimitRow>)
    requires forall model :: model in limits ==> model in cfg.backends
    ensures Compiled(cfg, OneProject(limits)).Ok?
    ensures Compiled(cfg, OneProject(limits)).value == [] <==> limits == map[]
  {
    var db := OneProject(limits);
    forall pk, model | model in LimitsOf(db, pk) ensures model in cfg.backends { OneProjectLimits(limits, pk); }
    CompileSucceeds(cfg, db);
    OneProjectGrants(limits);
  }

  lemma OneProjectGrants(limits: map<string, LimitRow>)
    ensures Grants(Query(OneProject(limits))) == [] <==> limits == map[]
  {
    var db := OneProject(limits);
    var gs := Grants(Query(db));
    QueryGrants(db);
    OneProjectLimits(limits, 1);
    if gs != [] {
      assert gs[0] in gs;
      OneProjectLimits(limits, gs[0].pk);
    }
    if limits != map[] {
      var model :| model in limits;
      assert GrantOf(db, 1, model) in gs;
    }
  }

  lemma NoProjectsCompile(cfg: Config, db: AuthDb)
    requires Referential(db) && db.projects == map[]
    ensures Compiled(cfg, db).Ok?
  {
    CompileSucceeds(cfg, db);
  }

  /** Deleting the only project shows no warning, and what would be deployed is gone. */
  lemma DeletionChangesSilently(cfg: Config, limits: map<string, LimitRow>, hash: string -> string)
    requires limits != map[] && forall model :: model in limits ==> model in cfg.backends
    ensures var (next, answer) := Perform(OneProject(limits), DeleteProjects({1}), hash);
            && answer == Accepted(false) && Compiled(cfg, OneProject(limits)).Ok?
            && Compiled(cfg, next).Ok? && Compiled(cfg, next) != Compiled(cfg, OneProject(limits))
  {
    OneProjectCompiles(cfg, limits);
    OneProjectLimits(limits, 1);
    DeletedProjectsAreSilent(cfg, OneProject(limits), {1}, hash);
    NoProjectsCompile(cfg, Perform(OneProject(limits), DeleteProjects({1}), hash).0);
  }

  /** Successfully compiled documents determine the grants they were compiled from. */
  lemma SameDocumentsSameGrants(cfg: Config, a: AuthDb, b: AuthDb)
    requires Compiled(cfg, a).Ok? && Compiled(cfg, a) == Compiled(cfg, b)
    ensures Grants(Query(a)) == Grants(Query(b))
  {
    var gs, hs := Grants(Query(a)), Grants(Query(b));
    var docs := Compiled(cfg, a).value;
    DocCount(cfg, gs);
    DocCount(cfg, hs);
    if gs != [] && hs != [] {
      assert docs[..|docs| - 1] == GrantDocs(cfg, gs) && docs[..|docs| - 1] == GrantDocs(cfg, hs);
      SameDocsSameGrants(cfg, gs, hs);
    }
  }

  lemma {:induction false} DocCount(cfg: Config, gs: seq<Grant>)
    requires AllBacked(cfg, gs)
    ensures |GrantDocs(cfg, gs)| == 2 * |gs|
  {
    if gs == [] {
    } else {
      DocCount(cfg, gs[..|gs| - 1]);
    }
  }

  lemma {:induction false} DocsAt(cfg: Config, gs: seq<Grant>, i: nat)
    requires AllBacked(cfg, gs) && i < |gs| && |GrantDocs(cfg, gs)| == 2 * |gs|
    ensures GrantDocs(cfg, gs)[2 * i] == RouteDocument(cfg, gs[i])
    ensures GrantDocs(cfg, gs)[2 * i + 1] == QuotaDocument(cfg, gs[i])
  {
    var front := gs[..|gs| - 1];
    DocCount(cfg, front);
    if i == |front| {
      assert gs[i] == gs[|gs| - 1];
    } else {
      DocsAt(cfg, front, i);
    }
  }

  lemma SameDocsSameGrants(cfg: Config, gs: seq<Grant>, hs: seq<Grant>)
    requires AllBacked(cfg, gs) && AllBacked(cfg, hs) && GrantDocs(cfg, gs) == GrantDocs(cfg, hs)
    ensures gs == hs
  {
    DocCount(cfg, gs);
    DocCount(cfg, hs);
    forall i: nat | i < |gs| ensures gs[i] == hs[i] {
      DocsAt(cfg, gs, i);
      DocsAt(cfg, hs, i);
      SamePairSameGrant(cfg, gs[i], hs[i]);
    }
  }

  lemma SamePairSameGrant(cfg: Config, g: Grant, h: Grant)
    requires Backed(cfg, g) && Backed(cfg, h)
    requires RouteDocument(cfg, g) == RouteDocument(cfg, h) && QuotaDocument(cfg, g) == QuotaDocument(cfg, h)
    ensures g == h
  {
    assert RouteDocument(cfg, g).matches[0].value == Dec(g.pk) && RouteDocument(cfg, h).matches[0].value == Dec(h.pk);
    assert RouteDocument(cfg, g).matches[1].value == g.limit.model && RouteDocument(cfg, h).matches[1].value == h.limit.model;
    DecInjective(g.pk, h.pk);
  }

  lemma ShortcutCharacters(s: string)
    ensures (forall i :: 0 <= i < |s| ==> ShortcutChar(s[i])) <==>
            forall c :: c in s ==> 'a' <= c <= 'z' || 'A' <= c <= 'Z' || '0' <= c <= '9' || c == '_' || c == '-'
  {
    assert forall i :: 0 <= i < |s| ==> s[i] in s;
  }

  /** A limit is valid with a model of 1 to 200 characters, 1 to 2^63-1 tokens a day and, if any, 1 to 2^31-1
      parallel requests. */
  lemma ValidLimitIs(model: string, limit: LimitRow)
    ensures ValidLimit(model, limit) <==>
            && 1 <= |model| <= 200 && 1 <= limit.daily <= 9223372036854775807
            && (limit.parallel.Some? ==> 1 <= limit.parallel.value <= 2147483647)
  {
  }

  /** The form is filled in properly, with a name and a slug no other class has and the slug kept if one is
      stored, and its formset is valid. */
  ghost predicate ClassAcceptable(db: AuthDb, pk: nat, f: ClassForm) {
    && FormsetValid(ClassLimits(db, pk), f.stored, f.extra)
    && 1 <= |f.name| <= 120 && 1 <= |f.slug| <= 48 && 'a' <= f.slug[0] <= 'z'
    && (forall i :: 0 <= i < |f.slug| ==> 'a' <= f.slug[i] <= 'z' || '0' <= f.slug[i] <= '9' || f.slug[i] == '-')
    && (pk in db.classes && db.classes[pk].slug != "" ==> f.slug == db.classes[pk].slug)
    && forall c :: c in db.classes && c != pk ==> db.classes[c].name != f.name && db.classes[c].slug != f.slug
  }

  /** Some inline form deletes its limit, changes its model or a number, or enters something new. */
  ghost predicate LimitsEdited(limits: map<string, LimitRow>, f: ClassForm) {
    || (exists i :: 0 <= i < |f.stored| &&
          (f.stored[i].delete || f.stored[i].was !in limits || f.stored[i].model != f.stored[i].was
           || f.stored[i].limit.daily != limits[f.stored[i].was].daily || f.stored[i].limit.parallel != limits[f.stored[i].was].parallel))
    || (exists i :: 0 <= i < |f.extra| && (f.extra[i].entered != Blank || f.extra[i].delete))
  }

  // ---------- the hooks ----------

  /** The two tables behind the admin pages, and how many redeployment warnings have been shown. */
  class AdminSite {
    var projects: map<nat, ProjectRow>
    var classes: map<nat, ClassRow>
    var warnings: nat
    const hash: string -> string

    constructor (hash: string -> string)
      ensures Tables() == AuthDb(map[], map[]) && warnings == 0 && this.hash == hash
    {
      projects, classes, warnings := map[], map[], 0;
      this.hash := hash;
    }

    function Tables(): AuthDb
      reads this
    {
      AuthDb(projects, classes)
    }

    /** The transaction commits db; the warning, if due, is shown afterwards. */
    method Commit(db: AuthDb, warn: bool) returns (answer: Answer)
      modifies this
      ensures Tables() == db && answer == Accepted(warn)
      ensures warnings == old(warnings) + if warn then 1 else 0
    {
      projects, classes := db.projects, db.classes;
      if warn { warnings := warnings + 1; }
      answer := Accepted(warn);
    }

    /** ProjectAdmin.save_model, for a new project when pk is not stored yet. */
    method SaveProject(pk: nat, form: ProjectForm, generated: string) returns (answer: Answer)
      modifies this
      ensures (Tables(), answer) == AfterProject(old(Tables()), pk, form, generated, hash)
      ensures answer.Accepted? <==> ProjectAcceptable(old(Tables()), pk, form, generated, hash)
      ensures answer.Refused? ==> Tables() == old(Tables())
      ensures answer.Accepted? ==> ProjectSaved(old(Tables()), Tables(), pk, form, generated, hash)
      ensures answer.Accepted? ==>
                (answer.warned <==> pk !in old(projects) || projects[pk].limitClass != old(projects)[pk].limitClass)
      ensures warnings == old(warnings) + if answer == Accepted(true) then 1 else 0
    {
      ShortcutCharacters(form.shortcut);
      if !ValidProject(form) || !ChoiceExists(Tables(), form) { return Refused; }
      var change := pk in projects;
      var row := if change then projects[pk] else BLANK_PROJECT;
      var joinCodeHash := row.joinCodeHash;
      if form.joinCode != "" {
        joinCodeHash := Some(hash(form.joinCode));
      } else if form.clearJoinCode {
        joinCodeHash := None;
      }
      var limitClass := if form.limitClass.Some? then form.limitClass.value else row.limitClass;
      var edited := ProjectRow(form.name, form.shortcut, form.endDate, joinCodeHash, form.joinRequiresApproval,
                               row.quotaKey, limitClass);
      var saved := if change then Projects.SaveProject(Tables(), pk, edited)
                   else Projects.CreateProject(Tables(), pk, edited, generated);
      if saved.Err? { return Refused; }
      answer := Commit(saved.value, !change || limitClass != row.limitClass);
    }

    /** Deleting projects, one by one or as a selection: no hook, no message. */
    method DeleteProjects(pks: set<nat>) returns (answer: Answer)
      modifies this
      ensures (Tables(), answer) == Perform(old(Tables()), Op.DeleteProjects(pks), hash)
      ensures forall pk :: pk in projects <==> pk in old(projects) && pk !in pks
      ensures forall pk :: pk in projects ==> projects[pk] == old(projects)[pk]
      ensures classes == old(classes) && warnings == old(warnings)
    {
      answer := Commit(Tables().(projects := projects - pks), false);
    }

    /** ProjectLimitClassAdmin.save_related, with the saving of the class before it in the same transaction. */
    method SubmitClass(pk: nat, form: ClassForm) returns (answer: Answer)
      modifies this
      ensures (Tables(), answer) == AfterClass(old(Tables()), pk, form)
      ensures answer.Accepted? <==> ClassAcceptable(old(Tables()), pk, form)
      ensures answer.Accepted? ==> (answer.warned <==> LimitsEdited(ClassLimits(old(Tables()), pk), form))
      ensures answer.Refused? ==> Tables() == old(Tables())
      ensures projects == old(projects) && forall c :: c != pk ==> (c in classes <==> c in old(classes)) && (c in classes ==> classes[c] == old(classes)[c])
      ensures answer.Accepted? ==>
                && pk in classes && classes[pk].name == form.name && classes[pk].slug == form.slug
                && FormsResult(ClassLimits(old(Tables()), pk), form.stored, form.extra, classes[pk].limits)
      ensures warnings == old(warnings) + if answer == Accepted(true) then 1 else 0
    {
      var loaded := ClassLimits(Tables(), pk);
      var changed := AnyChanged(loaded, form);
      var limits := SaveForms(loaded, form.stored, form.extra);
      if limits.None? || !ValidSlug(form.slug) || !(0 < |form.name| <= 120) { return Refused; }
      var saved := Projects.SaveClass(Tables(), pk, ClassRow(form.name, form.slug, limits.value));
      if saved.Err? { return Refused; }
      answer := Commit(saved.value, changed);
    }

    /** ProjectLimitClassAdmin.delete_model and delete_queryset */
    method DeleteClasses(pks: set<nat>) returns (answer: Answer)
      modifies this
      ensures (Tables(), answer) == AfterDeletingClasses(old(Tables()), pks)
      ensures answer.Refused? <==> exists p :: p in projects && projects[p].limitClass.Some? && projects[p].limitClass.value in pks
      ensures answer.Refused? ==> classes == old(classes)
      ensures answer.Accepted? ==> forall c :: c in classes <==> c in old(classes) && c !in pks
      ensures projects == old(projects) && forall c :: c in classes ==> classes[c] == old(classes)[c]
      ensures answer.Accepted? ==> (answer.warned <==> exists c :: c in old(classes) && c in pks && old(classes)[c].limits != map[])
      ensures warnings == old(warnings) + if answer == Accepted(true) then 1 else 0
    {
      if InUse(Tables(), pks) { return Refused; }
      var hasModelLimits := exists c :: c in pks && ClassLimits(Tables(), c) != map[];
      answer := Commit(Tables().(classes := classes - pks), hasModelLimits);
    }

    /** ProjectModelLimitAdmin.save_model */
    method SubmitLimit(was: Option<LimitRef>, now: LimitRef, limit: LimitRow) returns (answer: Answer)
      modifies this
      ensures (Tables(), answer) == Perform(old(Tables()), Op.SubmitLimit(was, now, limit), hash)
      ensures answer == if Savable(old(Tables()), was, now, limit) then Accepted(true) else Refused
      ensures SameButLimits(old(Tables()), Tables())
      ensures answer.Refused? ==> Tables() == old(Tables())
      ensures answer.Accepted? ==> LimitMoved(old(Tables()), Tables(), was, now, limit)
      ensures warnings == old(warnings) + if answer.Accepted? then 1 else 0
    {
      SavedLimit(Tables(), was, now, limit);
      if !ValidLimit(now.model, limit) || now.limitClass !in classes { return Refused; }
      if was.Some? && Stored(Tables(), was.value).None? { return Refused; }
      if Stored(Tables(), now).Some? && was != Some(now) { return Refused; }
      var saved := Tables();
      if was.Some? { saved := Dropped(saved, {was.value}); }
      answer := Commit(Inserted(saved, now, limit), true);
    }

    /** ProjectModelLimitAdmin.delete_model and delete_queryset */
    method DeleteLimits(refs: set<LimitRef>) returns (answer: Answer)
      modifies this
      ensures (Tables(), answer) == Perform(old(Tables()), Op.DeleteLimits(refs), hash)
      ensures answer == Accepted(true) && warnings == old(warnings) + 1
      ensures SameButLimits(old(Tables()), Tables())
      ensures forall ref :: Stored(Tables(), ref) == if ref in refs then None else Stored(old(Tables()), ref)
    {
      DroppedLimits(Tables(), refs);
      answer := Commit(Dropped(Tables(), refs), true);
    }
  }

  method AnyChanged(limits: map<string, LimitRow>, form: ClassForm) returns (changed: bool)
    ensures changed <==> FormsetChanged(limits, form)
  {
    for i := 0 to |form.stored|
      invariant forall j :: 0 <= j < i ==> !StoredChanged(limits, form.stored[j])
    {
      if StoredChanged(limits, form.stored[i]) { return true; }
    }
    for i := 0 to |form.extra|
      invariant forall j :: 0 <= j < |form.stored| ==> !StoredChanged(limits, form.stored[j])
      invariant forall j :: 0 <= j < i ==> !ExtraChanged(form.extra[j])
    {
      if ExtraChanged(form.extra[i]) { return true; }
    }
    changed := false;
  }

  /** Saving a formset: once it is valid, the stored limits' forms and then the new ones. */
  method SaveForms(limits: map<string, LimitRow>, stored: seq<StoredForm>, extra: seq<ExtraForm>)
    returns (r: Option<map<string, LimitRow>>)
    ensures r == SavedForms(limits, stored, extra)
    ensures r.Some? <==> FormsetValid(limits, stored, extra)
    ensures r.Some? ==> FormsResult(limits, stored, extra, r.value)
  {
    if !FormsetValid(limits, stored, extra) { return None; }
    SavedFormsAre(limits, stored, extra);
    var current := limits;
    for i := 0 to |stored|
      invariant ApplyForms(limits, stored, extra) == ApplyForms(current, stored[i..], extra)
    {
      assert stored[i..][1..] == stored[i + 1..];
      var next := ApplyStored(current, stored[i]);
      if next.None? { return None; }
      current := next.value;
    }
    for i := 0 to |extra|
      invariant ApplyForms(limits, stored, extra) == ApplyForms(current, [], extra[i..])
    {
      assert extra[i..][1..] == extra[i + 1..];
      var next := ApplyExtra(current, extra[i]);
      if next.None? { return None; }
      current := next.value;
    }
    r := Some(current);
  }
}
