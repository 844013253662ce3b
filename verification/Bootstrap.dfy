/** Bootstrap of the admin account (internal/controller/sonarqubeinstance_controller.go,
    initializeAdmin), on values, over runs of passes that may fail at any call. */
module Bootstrap {
  import opened Outcomes

  const DEFAULT_ADMIN_PASSWORD := "admin"

  /** The admin account on the server (password, live tokens, values issued), the Kubernetes Secret with
      the operator's token, and how often the password changed and the server was called. */
  datatype Admin = Admin(
    password: string, tokens: map<string, nat>, issued: nat,
    secret: Option<nat>, changes: nat, calls: nat)

  /** What becomes of each call of a pass. */
  datatype Env = Env(
    getSecret: Outcome, readPassword: Outcome, validate: Outcome, change: Outcome, generate: Outcome, create: Outcome)

  datatype Result = Result(admin: Admin, ok: bool)

  function Called(a: Admin): Admin {
    a.(calls := a.calls + 1)
  }

  /** ChangeAdminPassword authenticates with the default password. */
  function Change(a: Admin, target: string, o: Outcome): Admin {
    if o.Effective() && a.password == DEFAULT_ADMIN_PASSWORD
    then Called(a).(password := target, changes := a.changes + 1)
    else Called(a)
  }

  /** GenerateToken authenticates with the target password; a live name is refused. */
  predicate Generates(a: Admin, name: string, target: string, o: Outcome) {
    o.Effective() && a.password == target && name !in a.tokens
  }

  function Generate(a: Admin, name: string, target: string, o: Outcome): Admin {
    if Generates(a, name, target, o)
    then Called(a).(tokens := a.tokens[name := a.issued], issued := a.issued + 1)
    else Called(a)
  }

  function Create(a: Admin, token: nat, o: Outcome): Admin {
    if o.Effective() && a.secret.None? then a.(secret := Some(token)) else a
  }

  /** initializeAdmin. The early return needs a Get of the token Secret that succeeds; every error of
      that Get, not only "not found", leads on. */
  function Pass(a: Admin, name: string, target: string, e: Env): Result {
    if e.getSecret.Ok() && a.secret.Some? then Result(a, true)
    else if !e.readPassword.Ok() || target == "" then Result(a, false)
    else
      var a1 := Called(a);
      if e.validate.Ok() && a.password == target then Issue(a1, name, target, e)
      else
        var a2 := Change(a1, target, e.change);
        if e.change.Ok() && a.password == DEFAULT_ADMIN_PASSWORD then Issue(a2, name, target, e) else Result(a2, false)
  }

  function Issue(a: Admin, name: string, target: string, e: Env): Result {
    var a1 := Generate(a, name, target, e.generate);
    if !(e.generate.Ok() && Generates(a, name, target, e.generate)) then Result(a1, false)
    else Result(Create(a1, a.issued, e.create), e.create.Ok() && a1.secret.None?)
  }

  // ----- whole runs -----

  /** A pass, or somebody deleting the token Secret. */
  datatype Step = PassOf(env: Env) | SecretLost

  function Next(a: Admin, name: string, target: string, s: Step): Admin {
    match s
    case PassOf(e) => Pass(a, name, target, e).admin
    case SecretLost => a.(secret := None)
  }

  function Run(a: Admin, name: string, target: string, steps: seq<Step>): Admin {
    if steps == [] then a else Next(Run(a, name, target, steps[..|steps| - 1]), name, target, steps[|steps| - 1])
  }

  function Fresh(): Admin {
    Admin(DEFAULT_ADMIN_PASSWORD, map[], 0, None, 0, 0)
  }

  /** Before the change: default password, no token. After it: the target is in force for good, and a
      Secret that exists holds the live token. */
  predicate Inv(a: Admin, name: string, target: string) {
    || (a.password == DEFAULT_ADMIN_PASSWORD && a.changes == 0 && name !in a.tokens && a.secret.None?)
    || (a.password == target && a.changes == 1
        && (a.secret.Some? ==> name in a.tokens && a.tokens[name] == a.secret.value))
  }

  lemma PassKeepsInv(a: Admin, name: string, target: string, e: Env)
    requires target != DEFAULT_ADMIN_PASSWORD && Inv(a, name, target)
    ensures Inv(Pass(a, name, target, e).admin, name, target)
  {
  }

  /** Over every run, spurious failures of the password check included: the password is the default
      one or the target and changed at most once, and it is the target wherever a token Secret
      exists, which then holds the live token. */
  lemma {:induction false} PasswordMovesOnce(name: string, target: string, steps: seq<Step>)
    requires target != DEFAULT_ADMIN_PASSWORD
    ensures var a := Run(Fresh(), name, target, steps);
            && Inv(a, name, target)
            && a.changes <= 1 && a.password == (if a.changes == 0 then DEFAULT_ADMIN_PASSWORD else target)
            && (a.secret.Some? ==> a.password == target && name in a.tokens && a.tokens[name] == a.secret.value)
  {
    if steps != [] {
      PasswordMovesOnce(name, target, steps[..|steps| - 1]);
      if steps[|steps| - 1].PassOf? {
        PassKeepsInv(Run(Fresh(), name, target, steps[..|steps| - 1]), name, target, steps[|steps| - 1].env);
      }
    }
  }

  /** The password never moves back. */
  lemma {:induction false} TargetStays(a: Admin, name: string, target: string, steps: seq<Step>)
    requires target != DEFAULT_ADMIN_PASSWORD && a.password == target
    ensures Run(a, name, target, steps).password == target && Run(a, name, target, steps).changes == a.changes
  {
    if steps != [] {
      TargetStays(a, name, target, steps[..|steps| - 1]);
    }
  }

  /** Once the token Secret exists no pass changes anything. It makes no password or token call exactly
      when reading the Secret succeeds (or the password Secret cannot be used). */
  lemma SecretEndsBootstrap(a: Admin, name: string, target: string, e: Env)
    requires target != DEFAULT_ADMIN_PASSWORD && Inv(a, name, target) && a.secret.Some?
    ensures var r := Pass(a, name, target, e);
            && r.admin.(calls := a.calls) == a
            && (r.ok <==> e.getSecret.Ok())
            && (r.admin.calls == a.calls <==> e.getSecret.Ok() || !e.readPassword.Ok() || target == "")
  {
  }

  // ----- where bootstrap gets stuck -----

  /** The token is live but its value is lost. */
  predicate Wedged(a: Admin, name: string) {
    name in a.tokens && a.secret.None?
  }

  /** No pass revokes first, so on a server with unique token names a wedged bootstrap stays wedged:
      no run of passes ever creates the Secret again. */
  lemma {:induction false} WedgedForever(a: Admin, name: string, target: string, steps: seq<Step>)
    requires Wedged(a, name)
    ensures Wedged(Run(a, name, target, steps), name)
  {
    if steps != [] {
      WedgedForever(a, name, target, steps[..|steps| - 1]);
      StepKeepsWedged(Run(a, name, target, steps[..|steps| - 1]), name, target, steps[|steps| - 1]);
    }
  }

  /** The pass gets as far as asking for a token with the target password. */
  predicate AsksForToken(a: Admin, target: string, e: Env) {
    && a.secret.None? && e.readPassword.Ok() && target != ""
    && ((e.validate.Ok() && a.password == target) || (e.change.Ok() && a.password == DEFAULT_ADMIN_PASSWORD))
  }

  /** What wedges: a pass that has a token generated and does not store it, or losing a stored one. */
  predicate Wedges(a: Admin, target: string, s: Step) {
    match s
    case PassOf(e) =>
      AsksForToken(a, target, e) && e.generate.Effective() && !(e.generate.Ok() && e.create.Effective())
    case SecretLost => a.secret.Some?
  }

  /** A step wedges a bootstrap that was not wedged in exactly these two ways. */
  lemma StepWedgesExactly(a: Admin, name: string, target: string, s: Step)
    requires target != DEFAULT_ADMIN_PASSWORD && Inv(a, name, target) && !Wedged(a, name)
    ensures Wedged(Next(a, name, target, s), name) <==> Wedges(a, target, s)
  {
  }

  ghost predicate WedgesAt(name: string, target: string, steps: seq<Step>, i: nat) {
    i < |steps| && Wedges(Run(Fresh(), name, target, steps[..i]), target, steps[i])
  }

  /** Over every run from the start the bootstrap is wedged exactly when some step wedged it. */
  lemma {:induction false} WedgedExactly(name: string, target: string, steps: seq<Step>)
    requires target != DEFAULT_ADMIN_PASSWORD
    ensures Wedged(Run(Fresh(), name, target, steps), name) <==> exists i :: WedgesAt(name, target, steps, i)
  {
    if steps != [] {
      var n := |steps| - 1;
      var init, last := steps[..n], steps[n];
      var before := Run(Fresh(), name, target, init);
      WedgedExactly(name, target, init);
      PasswordMovesOnce(name, target, init);
      forall i | 0 <= i < n ensures WedgesAt(name, target, init, i) <==> WedgesAt(name, target, steps, i) {
        assert init[..i] == steps[..i];
      }
      assert WedgesAt(name, target, steps, n) <==> Wedges(before, target, last);
      if Wedged(before, name) {
        StepKeepsWedged(before, name, target, last);
      } else {
        StepWedgesExactly(before, name, target, last);
      }
    }
  }

  lemma StepKeepsWedged(a: Admin, name: string, target: string, s: Step)
    requires Wedged(a, name)
    ensures Wedged(Next(a, name, target, s), name)
  {
  }

  /** It does happen: the first pass, in which everything but the last call succeeds, wedges. */
  lemma FirstPassCanWedge(name: string, target: string)
    requires target != DEFAULT_ADMIN_PASSWORD && target != ""
    ensures Wedged(Run(Fresh(), name, target, [PassOf(Env(Done, Done, Done, Done, Done, Failed))]), name)
  {
    var e := Env(Done, Done, Done, Done, Done, Failed);
    assert [PassOf(e)][..0] == [];
    StepWedgesExactly(Fresh(), name, target, PassOf(e));
  }

  predicate AllDone(e: Env) {
    e.getSecret.Ok() && e.readPassword.Ok() && e.validate.Ok() && e.change.Ok() && e.generate.Ok() && e.create.Ok()
  }

  /** From every reachable state a pass without failures finishes the bootstrap, exactly when the
      bootstrap is not wedged. */
  lemma CleanPassFinishes(a: Admin, name: string, target: string, e: Env)
    requires target != DEFAULT_ADMIN_PASSWORD && target != "" && Inv(a, name, target) && AllDone(e)
    ensures var r := Pass(a, name, target, e);
            && (r.ok <==> !Wedged(a, name)) && (r.admin.secret.Some? <==> !Wedged(a, name))
            && r.admin.password == target
  {
  }

  // ----- one pass, exactly -----

  /** When a pass reports success: it could read that the Secret is there, or it made the Secret with
      every call it needed seen to succeed and its token name free. */
  lemma PassReportsExactly(a: Admin, name: string, target: string, e: Env)
    ensures Pass(a, name, target, e).ok <==>
              || (e.getSecret.Ok() && a.secret.Some?)
              || (&& a.secret.None? && name !in a.tokens && e.readPassword.Ok() && target != ""
                  && ((e.validate.Ok() && a.password == target) || (e.change.Ok() && a.password == "admin"))
                  && e.generate.Ok() && e.create.Ok())
  {
  }

  /** Success means that the Secret is there. */
  lemma SuccessMeansSecret(a: Admin, name: string, target: string, e: Env)
    requires Pass(a, name, target, e).ok
    ensures Pass(a, name, target, e).admin.secret.Some?
  {
  }

  /** The pass goes past the early return with a password it can use. */
  predicate Proceeds(a: Admin, target: string, e: Env) {
    !(e.getSecret.Ok() && a.secret.Some?) && e.readPassword.Ok() && target != ""
  }

  /** The password changes exactly when the check of the target did not succeed on a server that still
      has the default password, and the change took effect. */
  lemma PassMovesPasswordExactly(a: Admin, name: string, target: string, e: Env)
    ensures var a' := Pass(a, name, target, e).admin;
            a'.password ==
              if Proceeds(a, target, e) && a.password == "admin" && !(e.validate.Ok() && target == "admin")
                 && e.change.Effective()
              then target else a.password
  {
  }

  /** The Secret is made exactly when there was none, the target is known to be in force, and a token was
      seen generated and the creation took effect. It holds that token. */
  lemma PassMakesSecretExactly(a: Admin, name: string, target: string, e: Env)
    ensures var a' := Pass(a, name, target, e).admin;
            && (a.secret.Some? ==> a'.secret == a.secret)
            && (a.secret.None? ==>
                  a'.secret ==
                    if && Proceeds(a, target, e)
                       && ((e.validate.Ok() && a.password == target) || (e.change.Ok() && a.password == "admin"))
                       && e.generate.Ok() && name !in a.tokens && e.create.Effective()
                    then Some(a.issued) else None)
            && (!Proceeds(a, target, e) ==> a' == a)
  {
  }
}
