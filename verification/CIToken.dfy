/** CI token rotation as a protocol over three stores: the project annotation, the Kubernetes Secret
    and the live server token (internal/controller/sonarqubeproject_controller.go, reconcileCIToken).

    This module gives the protocol on values and proves what it keeps over whole runs. Every call may
    fail with or without having taken effect, and users act before and between the calls of a pass. */
module CIToken {
  import opened Outcomes

  datatype ProjectId = ProjectId(namespace: string, name: string)
  datatype SecretRef = SecretRef(namespace: string, name: string)

  /** The part of a SonarQubeProject that the rotation reads. */
  datatype Project = Project(id: ProjectId, key: string, secretName: string) {

    /** The Secret the token is kept in; its name has a default. */
    function Secret(): SecretRef {
      SecretRef(id.namespace, if secretName == "" then id.name + "-ci-token" else secretName)
    }

    function TokenName(instance: string): string {
      key + "-ci-" + instance
    }
  }

  /** The three stores for all projects of one instance, with a history of what happened to them.
      - tokens, issued: the live server tokens by name, and how many values were ever issued.
      - secrets: the token value each Secret holds.
      - annotation: the value of the rotate-token annotation where it is present.
      - created, annotated, deleted: how often the operator created a Secret, and how often a user set
        the annotation to "true" or deleted a Secret.
      - dead: Secrets that outlived the revocation of the token they hold. */
  datatype World = World(
    instance: string,
    tokens: map<string, nat>, issued: nat,
    secrets: map<SecretRef, nat>,
    annotation: map<ProjectId, string>,
    created: multiset<SecretRef>, annotated: multiset<ProjectId>, deleted: multiset<SecretRef>,
    dead: set<SecretRef>)

  datatype UserAct =
    | Annotate(id: ProjectId, value: string)
    | Unannotate(id: ProjectId)
    | DeleteSecret(ref: SecretRef)

  /** What happens around one pass: the user acts before each call, and what becomes of the call. */
  datatype Env = Env(
    beforeGet: seq<UserAct>, get: Outcome,
    beforePatch: seq<UserAct>, patch: Outcome,
    beforeRevoke: seq<UserAct>, revoke: Outcome,
    beforeDelete: seq<UserAct>, delete: Outcome,
    beforeGenerate: seq<UserAct>, generate: Outcome,
    beforeCreate: seq<UserAct>, create: Outcome)

  predicate Forced(w: World, p: Project) {
    p.id in w.annotation && w.annotation[p.id] == "true"
  }

  // ----- user acts -----

  function Act(w: World, a: UserAct): World {
    match a
    case Annotate(id, value) =>
      w.(annotation := w.annotation[id := value],
         annotated := if value == "true" then w.annotated + multiset{id} else w.annotated)
    case Unannotate(id) => w.(annotation := w.annotation - {id})
    case DeleteSecret(ref) =>
      if ref in w.secrets then RemoveSecret(w, ref).(deleted := w.deleted + multiset{ref}) else w
  }

  function RemoveSecret(w: World, ref: SecretRef): World {
    w.(secrets := w.secrets - {ref}, dead := w.dead - {ref})
  }

  function Acts(w: World, acts: seq<UserAct>): World {
    if acts == [] then w else Act(Acts(w, acts[..|acts| - 1]), acts[|acts| - 1])
  }

  // ----- the calls of a pass -----

  /** Patch: the operator removes the annotation. */
  function ClearAnnotation(w: World, p: Project, o: Outcome): World {
    if o.Effective() then w.(annotation := w.annotation - {p.id}) else w
  }

  function Revoke(w: World, p: Project, o: Outcome): World {
    if o.Effective() then w.(tokens := w.tokens - {p.TokenName(w.instance)}) else w
  }

  /** Delete of the old Secret. A Secret that stays although its token was revoked is dead. */
  function Delete(w: World, p: Project, o: Outcome, revoked: bool): World {
    if o.Effective() then RemoveSecret(w, p.Secret())
    else if revoked && p.Secret() in w.secrets then w.(dead := w.dead + {p.Secret()})
    else w
  }

  /** The server refuses a token name that is live. */
  predicate Generates(w: World, p: Project, o: Outcome) {
    o.Effective() && p.TokenName(w.instance) !in w.tokens
  }

  function Generate(w: World, p: Project, o: Outcome): World {
    if Generates(w, p, o)
    then w.(tokens := w.tokens[p.TokenName(w.instance) := w.issued], issued := w.issued + 1)
    else w
  }

  /** Kubernetes refuses a Secret that exists. */
  predicate Creates(w: World, p: Project, o: Outcome) {
    o.Effective() && p.Secret() !in w.secrets
  }

  function Create(w: World, p: Project, token: nat, o: Outcome): World {
    if Creates(w, p, o)
    then w.(secrets := w.secrets[p.Secret() := token], created := w.created + multiset{p.Secret()})
    else w
  }

  // ----- one pass -----

  /** What a pass leaves behind, and whether it reported success. */
  datatype Result = Result(world: World, ok: bool)

  /** reconcileCIToken on fresh data. */
  function Pass(w: World, p: Project, e: Env): Result {
    var forced := Forced(w, p);
    var w1 := Acts(w, e.beforeGet);
    if !e.get.Ok() then Result(w1, false)
    else
      var exists_ := p.Secret() in w1.secrets;
      if exists_ && !forced then Result(w1, true)
      else if !forced then Rotate(w1, p, exists_, e)
      else
        var w2 := ClearAnnotation(Acts(w1, e.beforePatch), p, e.patch);
        if e.patch.Ok() then Rotate(w2, p, exists_, e) else Result(w2, false)
  }

  function Rotate(w: World, p: Project, existed: bool, e: Env): Result {
    var w1 := Revoke(Acts(w, e.beforeRevoke), p, e.revoke);
    if !existed then Issue(w1, p, e)
    else
      var w2 := Delete(Acts(w1, e.beforeDelete), p, e.delete, e.revoke.Effective());
      if e.delete.Ok() then Issue(w2, p, e) else Result(w2, false)
  }

  function Issue(w: World, p: Project, e: Env): Result {
    var w1 := Acts(w, e.beforeGenerate);
    var w2 := Generate(w1, p, e.generate);
    if !(e.generate.Ok() && Generates(w1, p, e.generate)) then Result(w2, false)
    else
      var w3 := Acts(w2, e.beforeCreate);
      Result(Create(w3, p, w1.issued, e.create), e.create.Ok() && Creates(w3, p, e.create))
  }

  // ----- whole runs -----

  datatype Step = PassOf(project: Project, env: Env) | User(act: UserAct)

  function Next(w: World, s: Step): World {
    match s
    case PassOf(p, e) => Pass(w, p, e).world
    case User(a) => Act(w, a)
  }

  function Run(w: World, steps: seq<Step>): World {
    if steps == [] then w else Next(Run(w, steps[..|steps| - 1]), steps[|steps| - 1])
  }

  /** Distinct projects of one instance have distinct keys and distinct Secrets. */
  ghost predicate Apart(projects: set<Project>) {
    forall p, q :: p in projects && q in projects && p != q ==>
      p.id != q.id && p.key != q.key && p.Secret() != q.Secret()
  }

  ghost predicate StepsWithin(steps: seq<Step>, projects: set<Project>) {
    forall i :: 0 <= i < |steps| && steps[i].PassOf? ==> steps[i].project in projects
  }

  /** No token, no Secret, no annotation, no history. */
  function Fresh(instance: string): World {
    World(instance, map[], 0, map[], map[], multiset{}, multiset{}, multiset{}, {})
  }

  /** The token name determines the project key. */
  lemma TokenNameInjective(p: Project, q: Project, instance: string)
    requires p.TokenName(instance) == q.TokenName(instance)
    ensures p.key == q.key
  {
    var suffix := "-ci-" + instance;
    assert p.TokenName(instance) == p.key + suffix && q.TokenName(instance) == q.key + suffix;
    assert |p.key| == |q.key|;
    assert p.key == (p.key + suffix)[..|p.key|];
  }

  // ----- no token churn -----

  function One(b: bool): nat {
    if b then 1 else 0
  }

  /** The rotations a project still owes: one for the annotation (also when the running pass has read
      it already) and one for a missing Secret. */
  function Potential(w: World, p: Project, forced: bool): nat {
    One(Forced(w, p) || forced) + One(p.Secret() !in w.secrets)
  }

  /** Secrets created so far, plus what is still owed, plus the credit of a rotation that has cleared
      its annotation but not yet removed the old Secret, stay within what users asked for. */
  predicate Paid(w: World, p: Project, forced: bool, credit: nat) {
    w.created[p.Secret()] + Potential(w, p, forced) + credit <= 1 + w.annotated[p.id] + w.deleted[p.Secret()]
  }

  lemma ActKeepsPaid(w: World, a: UserAct, p: Project, forced: bool, credit: nat)
    requires Paid(w, p, forced, credit)
    ensures Paid(Act(w, a), p, forced, credit)
  {
  }

  lemma {:induction false} ActsKeepPaid(w: World, acts: seq<UserAct>, p: Project, forced: bool, credit: nat)
    requires Paid(w, p, forced, credit)
    ensures Paid(Acts(w, acts), p, forced, credit)
  {
    if acts != [] {
      ActsKeepPaid(w, acts[..|acts| - 1], p, forced, credit);
      ActKeepsPaid(Acts(w, acts[..|acts| - 1]), acts[|acts| - 1], p, forced, credit);
    }
  }

  lemma IssueKeepsPaid(w: World, p: Project, e: Env, q: Project)
    requires p == q || p.Secret() != q.Secret()
    requires Paid(w, q, false, 0)
    ensures Paid(Issue(w, p, e).world, q, false, 0)
  {
    var w1 := Acts(w, e.beforeGenerate);
    ActsKeepPaid(w, e.beforeGenerate, q, false, 0);
    var w2 := Generate(w1, p, e.generate);
    assert Paid(w2, q, false, 0);
    ActsKeepPaid(w2, e.beforeCreate, q, false, 0);
  }

  lemma RotateKeepsPaid(w: World, p: Project, existed: bool, e: Env, q: Project, credit: nat)
    requires p == q || p.Secret() != q.Secret()
    requires Paid(w, q, false, credit) && (existed && p == q ==> credit >= 1)
    ensures Paid(Rotate(w, p, existed, e).world, q, false, 0)
  {
    ActsKeepPaid(w, e.beforeRevoke, q, false, credit);
    var w1 := Revoke(Acts(w, e.beforeRevoke), p, e.revoke);
    if !existed {
      IssueKeepsPaid(w1, p, e, q);
    } else {
      ActsKeepPaid(w1, e.beforeDelete, q, false, credit);
      var w2 := Delete(Acts(w1, e.beforeDelete), p, e.delete, e.revoke.Effective());
      IssueKeepsPaid(w2, p, e, q);
    }
  }

  lemma PassKeepsPaid(w: World, p: Project, e: Env, q: Project)
    requires p == q || (p.id != q.id && p.Secret() != q.Secret())
    requires Paid(w, q, false, 0)
    ensures Paid(Pass(w, p, e).world, q, false, 0)
  {
    var forced := Forced(w, p);
    var mine := p == q && forced;
    var w1 := Acts(w, e.beforeGet);
    ActsKeepPaid(w, e.beforeGet, q, mine, 0);
    if e.get.Ok() && (p.Secret() !in w1.secrets || forced) {
      if !forced {
        RotateKeepsPaid(w1, p, p.Secret() in w1.secrets, e, q, 0);
      } else {
        ActsKeepPaid(w1, e.beforePatch, q, mine, 0);
        var w2 := ClearAnnotation(Acts(w1, e.beforePatch), p, e.patch);
        if e.patch.Ok() {
          RotateKeepsPaid(w2, p, p.Secret() in w1.secrets, e, q, One(p == q));
        }
      }
    }
  }

  lemma StepKeepsPaid(w: World, s: Step, q: Project)
    requires s.PassOf? ==> s.project == q || (s.project.id != q.id && s.project.Secret() != q.Secret())
    requires Paid(w, q, false, 0)
    ensures Paid(Next(w, s), q, false, 0)
  {
    match s
    case PassOf(p, e) => PassKeepsPaid(w, p, e, q);
    case User(a) => ActKeepsPaid(w, a, q, false, 0);
  }

  /** No token churn: over every run, whatever fails and whatever users do between the calls, the
      Secrets created for a project are at most one, plus one for each time a user set the annotation,
      plus one for each time a user deleted the Secret. */
  lemma {:induction false} NoTokenChurn(instance: string, projects: set<Project>, steps: seq<Step>, p: Project)
    requires Apart(projects) && StepsWithin(steps, projects) && p in projects
    ensures var w := Run(Fresh(instance), steps);
            w.created[p.Secret()] <= 1 + w.annotated[p.id] + w.deleted[p.Secret()]
    ensures Paid(Run(Fresh(instance), steps), p, false, 0)
  {
    if steps != [] {
      var init := steps[..|steps| - 1];
      NoTokenChurn(instance, projects, init, p);
      StepKeepsPaid(Run(Fresh(instance), init), steps[|steps| - 1], p);
    }
  }

  /** No user acts during the pass. */
  predicate Quiet(e: Env) {
    && e.beforeGet == e.beforePatch == e.beforeRevoke == []
    && e.beforeDelete == e.beforeGenerate == e.beforeCreate == []
  }

  /** One pass on its own never raises what is owed, and lowers it with each Secret it creates. */
  lemma PassPaysForItself(w: World, p: Project, e: Env)
    requires Quiet(e)
    ensures Pays(w, Pass(w, p, e).world, p, Potential(w, p, false))
  {
    var existed := p.Secret() in w.secrets;
    if e.get.Ok() && (!existed || Forced(w, p)) {
      var w1 := if Forced(w, p) then ClearAnnotation(w, p, e.patch) else w;
      var w2 := Revoke(w1, p, e.revoke);
      IssuePays(w2, p, e);
      IssuePays(Delete(w2, p, e.delete, e.revoke.Effective()), p, e);
    }
  }

  /** From w to w' the owed rotations and the Secrets created together stay within the budget. */
  predicate Pays(w: World, w': World, p: Project, budget: nat) {
    && w.created[p.Secret()] <= w'.created[p.Secret()]
    && Potential(w', p, false) + (w'.created[p.Secret()] - w.created[p.Secret()]) <= budget
  }

  lemma IssuePays(w: World, p: Project, e: Env)
    requires Quiet(e)
    ensures Pays(w, Issue(w, p, e).world, p, Potential(w, p, false))
  {
  }

  // ----- Secret and token agree -----

  /** The exact agreement of one project: a Secret that exists holds the live server token of its
      name, unless it is dead, and then no token of that name is live. While a pass is between its
      revocation and its delete the Secret is as good as dead. */
  predicate Agrees(w: World, p: Project, revoking: bool) {
    p.Secret() in w.secrets ==>
      if revoking || p.Secret() in w.dead
      then p.TokenName(w.instance) !in w.tokens
      else p.TokenName(w.instance) in w.tokens && w.tokens[p.TokenName(w.instance)] == w.secrets[p.Secret()]
  }

  /** Every token value in use was issued. */
  predicate Issued(w: World) {
    && (forall n :: n in w.tokens ==> w.tokens[n] < w.issued)
    && (forall r :: r in w.secrets ==> w.secrets[r] < w.issued)
    && (forall r :: r in w.dead ==> r in w.secrets)
  }

  ghost predicate Separate(p: Project, q: Project) {
    p == q || (p.id != q.id && p.key != q.key && p.Secret() != q.Secret())
  }

  lemma {:induction false} ActsKeepAgreement(w: World, acts: seq<UserAct>, q: Project, revoking: bool)
    requires Agrees(w, q, revoking) && Issued(w)
    ensures var w' := Acts(w, acts);
            && Agrees(w', q, revoking) && Issued(w')
            && w'.instance == w.instance && w'.tokens == w.tokens && w'.issued == w.issued
            && w'.secrets.Keys <= w.secrets.Keys
  {
    if acts != [] {
      ActsKeepAgreement(w, acts[..|acts| - 1], q, revoking);
    }
  }

  lemma GenerateKeepsAgreement(w: World, p: Project, o: Outcome, q: Project)
    requires Separate(p, q) && Agrees(w, q, false) && Issued(w)
    requires p.Secret() !in w.secrets
    ensures Agrees(Generate(w, p, o), q, false) && Issued(Generate(w, p, o))
  {
    if p != q && p.TokenName(w.instance) == q.TokenName(w.instance) {
      TokenNameInjective(p, q, w.instance);
    }
  }

  lemma CreateKeepsAgreement(w: World, p: Project, token: nat, o: Outcome, q: Project)
    requires Separate(p, q) && Agrees(w, q, false) && Issued(w)
    requires p.TokenName(w.instance) in w.tokens && w.tokens[p.TokenName(w.instance)] == token
    ensures Agrees(Create(w, p, token, o), q, false) && Issued(Create(w, p, token, o))
  {
  }

  lemma IssueKeepsAgreement(w: World, p: Project, e: Env, q: Project)
    requires Separate(p, q) && Agrees(w, q, false) && Issued(w)
    requires p.Secret() !in w.secrets
    ensures Agrees(Issue(w, p, e).world, q, false) && Issued(Issue(w, p, e).world)
  {
    var w1 := Acts(w, e.beforeGenerate);
    ActsKeepAgreement(w, e.beforeGenerate, q, false);
    var w2 := Generate(w1, p, e.generate);
    GenerateKeepsAgreement(w1, p, e.generate, q);
    if e.generate.Ok() && Generates(w1, p, e.generate) {
      var w3 := Acts(w2, e.beforeCreate);
      ActsKeepAgreement(w2, e.beforeCreate, q, false);
      CreateKeepsAgreement(w3, p, w1.issued, e.create, q);
    }
  }

  lemma RotateKeepsAgreement(w: World, p: Project, existed: bool, e: Env, q: Project)
    requires Separate(p, q) && Agrees(w, q, false) && Issued(w)
    requires !existed ==> p.Secret() !in w.secrets
    ensures Agrees(Rotate(w, p, existed, e).world, q, false) && Issued(Rotate(w, p, existed, e).world)
  {
    ActsKeepAgreement(w, e.beforeRevoke, q, false);
    var w0 := Acts(w, e.beforeRevoke);
    var w1 := Revoke(w0, p, e.revoke);
    var revoking := p == q && e.revoke.Effective();
    RevokeKeepsAgreement(w0, p, e.revoke, q);
    if !existed {
      IssueKeepsAgreement(w1, p, e, q);
    } else {
      ActsKeepAgreement(w1, e.beforeDelete, q, revoking);
      var w2 := Acts(w1, e.beforeDelete);
      DeleteKeepsAgreement(w2, p, e.delete, e.revoke.Effective(), q);
      if e.delete.Ok() {
        IssueKeepsAgreement(Delete(w2, p, e.delete, e.revoke.Effective()), p, e, q);
      }
    }
  }

  lemma RevokeKeepsAgreement(w: World, p: Project, o: Outcome, q: Project)
    requires Separate(p, q) && Agrees(w, q, false) && Issued(w)
    ensures Agrees(Revoke(w, p, o), q, p == q && o.Effective()) && Issued(Revoke(w, p, o))
  {
    if p != q && p.TokenName(w.instance) == q.TokenName(w.instance) {
      TokenNameInjective(p, q, w.instance);
    }
  }

  lemma DeleteKeepsAgreement(w: World, p: Project, o: Outcome, revoked: bool, q: Project)
    requires Separate(p, q) && Agrees(w, q, p == q && revoked) && Issued(w)
    ensures Agrees(Delete(w, p, o, revoked), q, false) && Issued(Delete(w, p, o, revoked))
  {
  }

  lemma PassKeepsAgreement(w: World, p: Project, e: Env, q: Project)
    requires Separate(p, q) && Agrees(w, q, false) && Issued(w)
    ensures Agrees(Pass(w, p, e).world, q, false) && Issued(Pass(w, p, e).world)
  {
    var w1 := Acts(w, e.beforeGet);
    ActsKeepAgreement(w, e.beforeGet, q, false);
    var existed := p.Secret() in w1.secrets;
    if e.get.Ok() && (!existed || Forced(w, p)) {
      if !Forced(w, p) {
        RotateKeepsAgreement(w1, p, existed, e, q);
      } else {
        ActsKeepAgreement(w1, e.beforePatch, q, false);
        var w2 := ClearAnnotation(Acts(w1, e.beforePatch), p, e.patch);
        if e.patch.Ok() {
          RotateKeepsAgreement(w2, p, existed, e, q);
        }
      }
    }
  }

  lemma StepKeepsAgreement(w: World, s: Step, q: Project)
    requires s.PassOf? ==> Separate(s.project, q)
    requires Agrees(w, q, false) && Issued(w)
    ensures Agrees(Next(w, s), q, false) && Issued(Next(w, s))
  {
    if s.PassOf? {
      PassKeepsAgreement(w, s.project, s.env, q);
    }
  }

  /** At every pass boundary of every run, a project's Secret that exists holds the live server token
      of its name exactly when it is not dead. */
  lemma {:induction false} SecretHoldsLiveToken(instance: string, projects: set<Project>, steps: seq<Step>, p: Project)
    requires Apart(projects) && StepsWithin(steps, projects) && p in projects
    ensures var w := Run(Fresh(instance), steps);
            && Agrees(w, p, false) && Issued(w)
            && (p.Secret() in w.secrets ==>
                  (p.Secret() !in w.dead <==>
                   p.TokenName(w.instance) in w.tokens && w.tokens[p.TokenName(w.instance)] == w.secrets[p.Secret()]))
  {
    if steps != [] {
      var init := steps[..|steps| - 1];
      SecretHoldsLiveToken(instance, projects, init, p);
      StepKeepsAgreement(Run(Fresh(instance), init), steps[|steps| - 1], p);
    }
  }

  // ----- where dead Secrets come from -----

  /** The one bad combination of outcomes: the token was revoked and the old Secret stayed. */
  predicate Slips(e: Env) {
    e.revoke.Effective() && !e.delete.Effective()
  }

  lemma {:induction false} ActsKillNothing(w: World, acts: seq<UserAct>)
    ensures Acts(w, acts).dead <= w.dead
  {
    if acts != [] {
      ActsKillNothing(w, acts[..|acts| - 1]);
    }
  }

  lemma PassWithoutSlip(w: World, p: Project, e: Env)
    requires !Slips(e)
    ensures Pass(w, p, e).world.dead <= w.dead
  {
    var w1 := Acts(w, e.beforeGet);
    ActsKillNothing(w, e.beforeGet);
    var w2 := ClearAnnotation(Acts(w1, e.beforePatch), p, e.patch);
    ActsKillNothing(w1, e.beforePatch);
    RotateWithoutSlip(w1, p, p.Secret() in w1.secrets, e);
    RotateWithoutSlip(w2, p, p.Secret() in w1.secrets, e);
  }

  lemma RotateWithoutSlip(w: World, p: Project, existed: bool, e: Env)
    requires !Slips(e)
    ensures Rotate(w, p, existed, e).world.dead <= w.dead
  {
    var w1 := Revoke(Acts(w, e.beforeRevoke), p, e.revoke);
    ActsKillNothing(w, e.beforeRevoke);
    var w2 := Delete(Acts(w1, e.beforeDelete), p, e.delete, e.revoke.Effective());
    ActsKillNothing(w1, e.beforeDelete);
    IssueKillsNothing(w1, p, e);
    IssueKillsNothing(w2, p, e);
  }

  lemma IssueKillsNothing(w: World, p: Project, e: Env)
    ensures Issue(w, p, e).world.dead <= w.dead
  {
    ActsKillNothing(w, e.beforeGenerate);
    ActsKillNothing(Generate(Acts(w, e.beforeGenerate), p, e.generate), e.beforeCreate);
  }

  /** Without a slip no Secret is ever dead, so every existing Secret holds its live token. */
  lemma {:induction false} NoSlipNoDeadSecret(instance: string, steps: seq<Step>)
    requires forall i :: 0 <= i < |steps| && steps[i].PassOf? ==> !Slips(steps[i].env)
    ensures Run(Fresh(instance), steps).dead == {}
  {
    if steps != [] {
      var init := steps[..|steps| - 1];
      NoSlipNoDeadSecret(instance, init);
      match steps[|steps| - 1]
      case PassOf(p, e) => PassWithoutSlip(Run(Fresh(instance), init), p, e);
      case User(a) =>
    }
  }

  /** A pass that no user interrupts leaves a Secret dead that was not dead before exactly when it
      rotates an existing Secret on request and slips. */
  lemma DeadExactlyAfterSlip(w: World, p: Project, e: Env)
    requires Quiet(e) && Issued(w) && p.Secret() !in w.dead
    ensures p.Secret() in Pass(w, p, e).world.dead <==>
            p.Secret() in w.secrets && Forced(w, p) && e.get.Ok() && e.patch.Ok() && Slips(e)
  {
    var w1 := if Forced(w, p) then ClearAnnotation(w, p, e.patch) else w;
    var w2 := Revoke(w1, p, e.revoke);
    IssueKillsNothing(w2, p, e);
    IssueKillsNothing(Delete(w2, p, e.delete, e.revoke.Effective()), p, e);
  }

  /** A slip on an existing Secret under rotation does leave it dead: the pass fails, and the next
      passes return early and keep the dead Secret until a user acts. */
  lemma SlipLeavesDeadSecret(w: World, p: Project, e: Env, later: Env)
    requires Quiet(e) && Quiet(later)
    requires p.Secret() in w.secrets && Forced(w, p) && e.get.Ok() && e.patch.Ok() && Slips(e)
    ensures var r := Pass(w, p, e);
            && !r.ok && p.Secret() in r.world.secrets && p.Secret() in r.world.dead
            && p.TokenName(w.instance) !in r.world.tokens
            && Pass(r.world, p, later).world == r.world
            && (later.get.Ok() ==> Pass(r.world, p, later).ok)
  {
  }

  // ----- one project does not disturb another -----

  /** What two worlds hold for a project. */
  predicate SameFor(w: World, w': World, q: Project) {
    var n := q.TokenName(w.instance);
    && w'.instance == w.instance
    && (n in w'.tokens <==> n in w.tokens) && (n in w.tokens ==> w'.tokens[n] == w.tokens[n])
    && (q.Secret() in w'.secrets <==> q.Secret() in w.secrets)
    && (q.Secret() in w.secrets ==> w'.secrets[q.Secret()] == w.secrets[q.Secret()])
    && (q.id in w'.annotation <==> q.id in w.annotation)
    && (q.id in w.annotation ==> w'.annotation[q.id] == w.annotation[q.id])
  }

  lemma SameForTwice(w: World, w1: World, w2: World, q: Project)
    requires SameFor(w, w1, q) && SameFor(w1, w2, q)
    ensures SameFor(w, w2, q)
  {
  }

  /** The users act, but not on this project. */
  predicate SparesAct(a: UserAct, q: Project) {
    match a
    case Annotate(id, _) => id != q.id
    case Unannotate(id) => id != q.id
    case DeleteSecret(ref) => ref != q.Secret()
  }

  predicate SparesIn(acts: seq<UserAct>, q: Project) {
    forall i :: 0 <= i < |acts| ==> SparesAct(acts[i], q)
  }

  predicate Spares(e: Env, q: Project) {
    && SparesIn(e.beforeGet, q) && SparesIn(e.beforePatch, q) && SparesIn(e.beforeRevoke, q)
    && SparesIn(e.beforeDelete, q) && SparesIn(e.beforeGenerate, q) && SparesIn(e.beforeCreate, q)
  }

  lemma SparingActIsLocal(w: World, a: UserAct, q: Project)
    requires SparesAct(a, q)
    ensures SameFor(w, Act(w, a), q)
  {
  }

  lemma {:induction false} SparingActsAreLocal(w: World, acts: seq<UserAct>, q: Project)
    requires SparesIn(acts, q)
    ensures SameFor(w, Acts(w, acts), q)
  {
    if acts != [] {
      var init, last := acts[..|acts| - 1], acts[|acts| - 1];
      SparingActsAreLocal(w, init, q);
      SparingActIsLocal(Acts(w, init), last, q);
      SameForTwice(w, Acts(w, init), Act(Acts(w, init), last), q);
    }
  }

  /** Each call of a pass leaves every other project alone. */
  lemma CallsAreLocal(w: World, p: Project, q: Project, o: Outcome, revoked: bool, token: nat)
    requires Separate(p, q) && p != q
    ensures SameFor(w, ClearAnnotation(w, p, o), q)
    ensures SameFor(w, Revoke(w, p, o), q)
    ensures SameFor(w, Delete(w, p, o, revoked), q)
    ensures SameFor(w, Generate(w, p, o), q)
    ensures SameFor(w, Create(w, p, token, o), q)
  {
    if p.TokenName(w.instance) == q.TokenName(w.instance) {
      TokenNameInjective(p, q, w.instance);
    }
  }

  lemma IssueIsLocal(w: World, p: Project, e: Env, q: Project)
    requires Separate(p, q) && p != q && Spares(e, q)
    ensures SameFor(w, Issue(w, p, e).world, q)
  {
    var w1 := Acts(w, e.beforeGenerate);
    var w2 := Generate(w1, p, e.generate);
    var w3 := Acts(w2, e.beforeCreate);
    SparingActsAreLocal(w, e.beforeGenerate, q);
    CallsAreLocal(w1, p, q, e.generate, false, 0);
    SameForTwice(w, w1, w2, q);
    SparingActsAreLocal(w2, e.beforeCreate, q);
    SameForTwice(w, w2, w3, q);
    CallsAreLocal(w3, p, q, e.create, false, w1.issued);
    SameForTwice(w, w3, Create(w3, p, w1.issued, e.create), q);
  }

  lemma RotateIsLocal(w: World, p: Project, existed: bool, e: Env, q: Project)
    requires Separate(p, q) && p != q && Spares(e, q)
    ensures SameFor(w, Rotate(w, p, existed, e).world, q)
  {
    var w0 := Acts(w, e.beforeRevoke);
    var w1 := Revoke(w0, p, e.revoke);
    SparingActsAreLocal(w, e.beforeRevoke, q);
    CallsAreLocal(w0, p, q, e.revoke, false, 0);
    SameForTwice(w, w0, w1, q);
    if !existed {
      IssueIsLocal(w1, p, e, q);
      SameForTwice(w, w1, Issue(w1, p, e).world, q);
    } else {
      var w2 := Acts(w1, e.beforeDelete);
      var w3 := Delete(w2, p, e.delete, e.revoke.Effective());
      SparingActsAreLocal(w1, e.beforeDelete, q);
      SameForTwice(w, w1, w2, q);
      CallsAreLocal(w2, p, q, e.delete, e.revoke.Effective(), 0);
      SameForTwice(w, w2, w3, q);
      IssueIsLocal(w3, p, e, q);
      SameForTwice(w, w3, Issue(w3, p, e).world, q);
    }
  }

  /** A pass leaves the tokens, Secrets and annotations of every other project as they were, unless
      users act on that project meanwhile. */
  lemma RotationIsLocal(w: World, p: Project, e: Env, q: Project)
    requires Separate(p, q) && p != q && Spares(e, q)
    ensures SameFor(w, Pass(w, p, e).world, q)
  {
    var w1 := Acts(w, e.beforeGet);
    var existed := p.Secret() in w1.secrets;
    SparingActsAreLocal(w, e.beforeGet, q);
    if e.get.Ok() && !(existed && !Forced(w, p)) {
      if !Forced(w, p) {
        RotateIsLocal(w1, p, existed, e, q);
        SameForTwice(w, w1, Rotate(w1, p, existed, e).world, q);
      } else {
        var w2 := Acts(w1, e.beforePatch);
        var w3 := ClearAnnotation(w2, p, e.patch);
        SparingActsAreLocal(w1, e.beforePatch, q);
        SameForTwice(w, w1, w2, q);
        CallsAreLocal(w2, p, q, e.patch, false, 0);
        SameForTwice(w, w2, w3, q);
        RotateIsLocal(w3, p, existed, e, q);
        SameForTwice(w, w3, Rotate(w3, p, existed, e).world, q);
      }
    }
  }

  // ----- order and progress -----

  /** Users neither make nor revoke tokens, and make no Secret. */
  lemma {:induction false} ActsMakeNothing(w: World, acts: seq<UserAct>)
    ensures var w' := Acts(w, acts);
            && w'.instance == w.instance && w'.tokens == w.tokens && w'.issued == w.issued && w'.created == w.created
            && w'.secrets.Keys <= w.secrets.Keys
  {
    if acts != [] {
      ActsMakeNothing(w, acts[..|acts| - 1]);
    }
  }

  /** The annotation goes first: when clearing it fails, the pass has changed no token and no Secret;
      only users have. */
  lemma FailedPatchRotatesNothing(w: World, p: Project, e: Env)
    requires Forced(w, p) && !e.patch.Ok()
    ensures var w' := Pass(w, p, e).world;
            var users := if e.get.Ok() then Acts(Acts(w, e.beforeGet), e.beforePatch) else Acts(w, e.beforeGet);
            && w'.tokens == w.tokens && w'.issued == w.issued && w'.created == w.created
            && w'.secrets == users.secrets && w'.dead == users.dead
            && (!e.patch.Effective() ==> w' == users)
  {
    ActsMakeNothing(w, e.beforeGet);
    ActsMakeNothing(Acts(w, e.beforeGet), e.beforePatch);
  }

  /** No call of the pass fails. */
  predicate AllDone(e: Env) {
    e.get.Ok() && e.patch.Ok() && e.revoke.Ok() && e.delete.Ok() && e.generate.Ok() && e.create.Ok()
  }

  lemma CleanIssue(w: World, p: Project, e: Env)
    requires e.generate.Ok() && e.create.Ok() && p.TokenName(w.instance) !in w.tokens && p.Secret() !in w.secrets
    ensures var r := Issue(w, p, e);
            var n := p.TokenName(w.instance);
            && r.ok && r.world.instance == w.instance && p.Secret() in r.world.secrets && n in r.world.tokens
            && r.world.tokens[n] == r.world.secrets[p.Secret()] == w.issued
  {
    ActsMakeNothing(w, e.beforeGenerate);
    ActsMakeNothing(Generate(Acts(w, e.beforeGenerate), p, e.generate), e.beforeCreate);
  }

  lemma CleanRotate(w: World, p: Project, existed: bool, e: Env)
    requires AllDone(e) && (!existed ==> p.Secret() !in w.secrets)
    ensures var r := Rotate(w, p, existed, e);
            var n := p.TokenName(w.instance);
            && r.ok && r.world.instance == w.instance && p.Secret() in r.world.secrets && n in r.world.tokens
            && r.world.tokens[n] == r.world.secrets[p.Secret()] == w.issued
  {
    ActsMakeNothing(w, e.beforeRevoke);
    var w1 := Revoke(Acts(w, e.beforeRevoke), p, e.revoke);
    if !existed {
      CleanIssue(w1, p, e);
    } else {
      ActsMakeNothing(w1, e.beforeDelete);
      CleanIssue(Delete(Acts(w1, e.beforeDelete), p, e.delete, true), p, e);
    }
  }

  /** From every reachable state a pass without failures succeeds, whatever users do meanwhile, and
      leaves the Secret. The Secret holds the live token, except exactly when it was dead as the pass
      found it and no rotation was asked for. A pass that was asked to rotate issues a value never used
      before. Only an annotation users set meanwhile is left to do. */
  lemma CleanPassSettles(w: World, p: Project, e: Env)
    requires AllDone(e) && Agrees(w, p, false) && Issued(w)
    ensures var r := Pass(w, p, e);
            var n := p.TokenName(w.instance);
            && r.ok && p.Secret() in r.world.secrets
            && (n in r.world.tokens && r.world.tokens[n] == r.world.secrets[p.Secret()]
                <==> !(p.Secret() in Acts(w, e.beforeGet).dead && !Forced(w, p)))
            && (Forced(w, p) ==> r.world.secrets[p.Secret()] == w.issued)
            && Potential(r.world, p, false) == One(Forced(r.world, p))
            && (Quiet(e) ==> Potential(r.world, p, false) == 0)
  {
    var w1 := Acts(w, e.beforeGet);
    ActsKeepAgreement(w, e.beforeGet, p, false);
    var existed := p.Secret() in w1.secrets;
    if !existed || Forced(w, p) {
      if !Forced(w, p) {
        CleanRotate(w1, p, existed, e);
      } else {
        ActsMakeNothing(w1, e.beforePatch);
        CleanRotate(ClearAnnotation(Acts(w1, e.beforePatch), p, e.patch), p, existed, e);
      }
    }
  }

  /** A pass that reports success leaves a Secret behind, so the status may name it. */
  lemma SuccessMeansSecret(w: World, p: Project, e: Env)
    requires Pass(w, p, e).ok
    ensures p.Secret() in Pass(w, p, e).world.secrets
  {
  }

  // ----- one pass, exactly -----

  /** The pass goes on to rotate: the Secret is missing, or the annotation asks for it and was cleared. */
  predicate Rotates(w: World, p: Project, e: Env) {
    var secret := SecretRef(p.id.namespace, if p.secretName != "" then p.secretName else p.id.name + "-ci-token");
    var asked := p.id in w.annotation && w.annotation[p.id] == "true";
    e.get.Ok() && (asked || secret !in w.secrets) && (asked ==> e.patch.Ok())
  }

  /** The rotation gets as far as asking for a token: an old Secret was deleted first. */
  predicate Asks(w: World, p: Project, e: Env) {
    var secret := SecretRef(p.id.namespace, if p.secretName != "" then p.secretName else p.id.name + "-ci-token");
    Rotates(w, p, e) && (secret in w.secrets ==> e.delete.Ok())
  }

  /** The Secret the spec names, or the one named after the project, is where a successful pass leaves
      the token. */
  lemma SuccessUsesTheNamedSecret(w: World, p: Project, e: Env)
    requires Pass(w, p, e).ok
    ensures SecretRef(p.id.namespace, if p.secretName != "" then p.secretName else p.id.name + "-ci-token")
            in Pass(w, p, e).world.secrets
  {
  }

  /** When a pass no user interrupts reports success: it could read that a Secret is there and nobody
      asked for a rotation, or it rotated, its token name was free after the revocation, and no call but
      the revocation failed. */
  lemma PassReportsExactly(w: World, p: Project, e: Env)
    requires Quiet(e)
    ensures var name := p.key + "-ci-" + w.instance;
            Pass(w, p, e).ok <==>
              || (e.get.Ok() && !Rotates(w, p, e) && !(p.id in w.annotation && w.annotation[p.id] == "true"))
              || (Asks(w, p, e) && (name in w.tokens ==> e.revoke.Effective()) && e.generate.Ok() && e.create.Ok())
  {
  }

  lemma QuietIssueLeaves(w: World, p: Project, e: Env)
    requires Quiet(e) && p.Secret() !in w.secrets
    ensures var n := p.TokenName(w.instance);
            var w' := Issue(w, p, e).world;
            && w'.annotation == w.annotation
            && (n in w'.tokens <==> n in w.tokens || e.generate.Effective())
            && (p.Secret() in w'.secrets <==> n !in w.tokens && e.generate.Ok() && e.create.Effective())
  {
  }

  lemma QuietRotateLeaves(w: World, p: Project, e: Env)
    requires Quiet(e)
    ensures var n, existed := p.TokenName(w.instance), p.Secret() in w.secrets;
            var w' := Rotate(w, p, existed, e).world;
            var asks := existed ==> e.delete.Ok();
            && w'.annotation == w.annotation
            && (n in w'.tokens <==> (n in w.tokens && !e.revoke.Effective()) || (asks && e.generate.Effective()))
            && (p.Secret() in w'.secrets <==>
                || (existed && !e.delete.Effective())
                || (asks && (n in w.tokens ==> e.revoke.Effective()) && e.generate.Ok() && e.create.Effective()))
  {
    var w1 := Revoke(w, p, e.revoke);
    if p.Secret() !in w.secrets {
      QuietIssueLeaves(w1, p, e);
    } else if e.delete.Ok() {
      QuietIssueLeaves(Delete(w1, p, e.delete, e.revoke.Effective()), p, e);
    }
  }

  lemma QuietPassIs(w: World, p: Project, e: Env)
    requires Quiet(e)
    ensures var existed := p.Secret() in w.secrets;
            var w1 := if Forced(w, p) && e.get.Ok() then ClearAnnotation(w, p, e.patch) else w;
            Pass(w, p, e).world == if Rotates(w, p, e) then Rotate(w1, p, existed, e).world else w1
  {
  }

  /** What such a pass leaves in each store, whatever fails: the annotation is cleared exactly when it
      says "true", the Secret was looked up and the patch took effect; the token of the project's name is
      live exactly when it was and was not revoked, or a new one was generated. */
  lemma PassLeavesExactly(w: World, p: Project, e: Env)
    requires Quiet(e)
    ensures var name := p.key + "-ci-" + w.instance;
            var w' := Pass(w, p, e).world;
            && (p.id in w'.annotation <==>
                p.id in w.annotation && !(w.annotation[p.id] == "true" && e.get.Ok() && e.patch.Effective()))
            && (name in w'.tokens <==>
                || (name in w.tokens && !(Rotates(w, p, e) && e.revoke.Effective()))
                || (Asks(w, p, e) && e.generate.Effective()))
  {
    QuietPassIs(w, p, e);
    QuietRotateLeaves(w, p, e);
    QuietRotateLeaves(ClearAnnotation(w, p, e.patch), p, e);
  }

  /** And its Secret is there exactly when it was and no rotation deleted it, or one was created for a
      token the pass had seen generated. */
  lemma PassLeavesSecretExactly(w: World, p: Project, e: Env)
    requires Quiet(e)
    ensures var name := p.key + "-ci-" + w.instance;
            var secret :=
              SecretRef(p.id.namespace, if p.secretName != "" then p.secretName else p.id.name + "-ci-token");
            secret in Pass(w, p, e).world.secrets <==>
              || (secret in w.secrets && !(Rotates(w, p, e) && e.delete.Effective()))
              || (Asks(w, p, e) && (name in w.tokens ==> e.revoke.Effective())
                  && e.generate.Ok() && e.create.Effective())
  {
    QuietPassIs(w, p, e);
    QuietRotateLeaves(w, p, e);
    QuietRotateLeaves(ClearAnnotation(w, p, e.patch), p, e);
  }
}
