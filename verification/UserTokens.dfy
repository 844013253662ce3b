/** The standalone tokens of one user (internal/controller/sonarqubeuser_controller.go,
    reconcileUserTokens) on values, over runs with changing specs: which Secrets hold live tokens. */
module UserTokens {
  import opened Outcomes
  import opened Remote
  import opened Text

  datatype UserToken = UserToken(name: string, secretName: string)

  /** The user's live tokens on the server and the Secrets of the namespace.
      - net, calls: what becomes of the calls, and how many were made.
      - origin: the token name each Secret was made under.
      - dead: Secrets that outlived the revocation of the token they hold. */
  datatype World = World(
    net: seq<Outcome>, calls: nat,
    tokens: map<string, nat>, issued: nat,
    secrets: map<string, nat>, origin: map<string, string>, dead: set<string>)

  datatype Result = Result(world: World, ok: bool)

  /** What becomes of the next call. */
  function Now(w: World): Outcome {
    Fate(w.net, w.calls)
  }

  function Called(w: World): World {
    w.(calls := w.calls + 1)
  }

  function HeldUnder(w: World, name: string): set<string> {
    set s | s in w.secrets && s in w.origin && w.origin[s] == name
  }

  function Revoke(w: World, name: string): Result {
    var w1 := Called(w);
    Result(if Now(w).Effective() then w1.(tokens := w.tokens - {name}, dead := w.dead + HeldUnder(w, name)) else w1,
           Now(w).Ok())
  }

  /** Revokes the managed names that left the spec, in list order, up to the first error. */
  function RevokeDropped(w: World, managed: seq<string>, keep: set<string>): Result {
    if managed == [] then Result(w, true)
    else
      var r, last := RevokeDropped(w, managed[..|managed| - 1], keep), managed[|managed| - 1];
      if !r.ok || last in keep then r else Revoke(r.world, last)
  }

  /** A live name is refused. */
  predicate Generates(w: World, name: string) {
    Now(w).Effective() && name !in w.tokens
  }

  function Generate(w: World, name: string): World {
    var w1 := Called(w);
    if Generates(w, name) then w1.(tokens := w.tokens[name := w.issued], issued := w.issued + 1) else w1
  }

  /** An existing Secret is refused. */
  predicate Creates(w: World, secretName: string) {
    Now(w).Effective() && secretName !in w.secrets
  }

  function Create(w: World, t: UserToken, token: nat): World {
    var w1 := Called(w);
    if Creates(w, t.secretName)
    then w1.(secrets := w.secrets[t.secretName := token], origin := w.origin[t.secretName := t.name])
    else w1
  }

  /** One spec entry: nothing to do when its Secret exists, whatever it holds. */
  function GenerateMissing(w: World, t: UserToken): Result {
    var w1 := Called(w);
    if !Now(w).Ok() then Result(w1, false)
    else if t.secretName in w.secrets then Result(w1, true)
    else
      var w2 := Generate(w1, t.name);
      if !(Now(w1).Ok() && Generates(w1, t.name)) then Result(w2, false)
      else Result(Create(w2, t, w1.issued), Now(w2).Ok() && Creates(w2, t.secretName))
  }

  function GenerateAll(w: World, spec: seq<UserToken>): Result {
    if spec == [] then Result(w, true)
    else
      var r := GenerateAll(w, spec[..|spec| - 1]);
      if !r.ok then r else GenerateMissing(r.world, spec[|spec| - 1])
  }

  function TokenNames(tokens: seq<UserToken>): set<string> {
    set t | t in tokens :: t.name
  }

  /** reconcileUserTokens. */
  function Pass(w: World, managed: seq<string>, spec: seq<UserToken>): Result {
    var r := RevokeDropped(w, managed, TokenNames(spec));
    if !r.ok then r else GenerateAll(r.world, spec)
  }

  /** The loops, one entry at a time: after an error the rest of the list is not looked at. */
  lemma RevokeDroppedPrefix(w: World, managed: seq<string>, keep: set<string>, i: nat)
    requires i < |managed| && RevokeDropped(w, managed[..i], keep).ok
    ensures var r := RevokeDropped(w, managed[..i], keep);
            RevokeDropped(w, managed[..i + 1], keep) == if managed[i] in keep then r else Revoke(r.world, managed[i])
    ensures !RevokeDropped(w, managed[..i + 1], keep).ok ==>
              RevokeDropped(w, managed, keep) == RevokeDropped(w, managed[..i + 1], keep)
  {
    assert managed[..i + 1][..i] == managed[..i];
    FailedRevokeEnds(w, managed, keep, i + 1);
  }

  lemma {:induction false} FailedRevokeEnds(w: World, managed: seq<string>, keep: set<string>, i: nat)
    requires i <= |managed|
    ensures !RevokeDropped(w, managed[..i], keep).ok ==>
              RevokeDropped(w, managed, keep) == RevokeDropped(w, managed[..i], keep)
    decreases |managed|
  {
    if i < |managed| {
      var init := managed[..|managed| - 1];
      FailedRevokeEnds(w, init, keep, i);
      assert init[..i] == managed[..i];
    } else {
      assert managed[..i] == managed;
    }
  }

  /** Only tokens of dropped names go, and without an error all of them. */
  lemma {:induction false} RevokeDroppedTakes(w: World, managed: seq<string>, keep: set<string>)
    ensures var r := RevokeDropped(w, managed, keep);
            && r.world.tokens == w.tokens - (w.tokens.Keys - r.world.tokens.Keys)
            && w.tokens.Keys - r.world.tokens.Keys <= Elements(managed) - keep
            && (r.ok ==> r.world.tokens == w.tokens - (Elements(managed) - keep))
  {
    if managed == [] {
      assert w.tokens - {} == w.tokens;
    } else {
      var init, last := managed[..|managed| - 1], managed[|managed| - 1];
      RevokeDroppedTakes(w, init, keep);
      assert managed == init + [last];
      assert Elements(managed) == Elements(init) + {last};
    }
  }

  lemma GenerateAllPrefix(w: World, spec: seq<UserToken>, i: nat)
    requires i < |spec| && GenerateAll(w, spec[..i]).ok
    ensures GenerateAll(w, spec[..i + 1]) == GenerateMissing(GenerateAll(w, spec[..i]).world, spec[i])
    ensures !GenerateAll(w, spec[..i + 1]).ok ==> GenerateAll(w, spec) == GenerateAll(w, spec[..i + 1])
  {
    assert spec[..i + 1][..i] == spec[..i];
    FailedGenerateEnds(w, spec, i + 1);
  }

  lemma {:induction false} FailedGenerateEnds(w: World, spec: seq<UserToken>, i: nat)
    requires i <= |spec|
    ensures !GenerateAll(w, spec[..i]).ok ==> GenerateAll(w, spec) == GenerateAll(w, spec[..i])
    decreases |spec|
  {
    if i < |spec| {
      var init := spec[..|spec| - 1];
      FailedGenerateEnds(w, init, i);
      assert init[..i] == spec[..i];
    } else {
      assert spec[..i] == spec;
    }
  }

  /** Every new Secret holds the live token of a spec entry that names the Secret. */
  ghost predicate MadeFrom(
      spec: seq<UserToken>, secrets: map<string, nat>, secrets': map<string, nat>, tokens: map<string, nat>)
  {
    forall s :: s in secrets' && s !in secrets ==>
      exists t :: t in spec && t.secretName == s && t.name in tokens && tokens[t.name] == secrets'[s]
  }

  /** What one entry makes: at most a token of its name and its Secret holding that token. */
  lemma GenerateMissingMakes(w: World, t: UserToken)
    ensures var r := GenerateMissing(w, t);
            && w.tokens.Keys <= r.world.tokens.Keys <= w.tokens.Keys + {t.name}
            && (forall n :: n in w.tokens ==> r.world.tokens[n] == w.tokens[n])
            && w.secrets.Keys <= r.world.secrets.Keys
            && (r.world.secrets == w.secrets
                || (t.name in r.world.tokens && t.secretName !in w.secrets
                    && r.world.secrets == w.secrets[t.secretName := r.world.tokens[t.name]]))
            && (r.ok ==> t.secretName in r.world.secrets)
  {
  }

  lemma {:induction false} GenerateAllMakes(w: World, spec: seq<UserToken>)
    ensures var r := GenerateAll(w, spec);
            && w.tokens.Keys <= r.world.tokens.Keys <= w.tokens.Keys + TokenNames(spec)
            && MadeFrom(spec, w.secrets, r.world.secrets, r.world.tokens)
            && (forall s :: s in w.secrets ==> s in r.world.secrets && r.world.secrets[s] == w.secrets[s])
            && (r.ok ==> forall t :: t in spec ==> t.secretName in r.world.secrets)
  {
    if spec != [] {
      var init, last := spec[..|spec| - 1], spec[|spec| - 1];
      var r := GenerateAll(w, init);
      assert spec == init + [last];
      GenerateAllMakes(w, init);
      assert TokenNames(init) <= TokenNames(spec);
      if r.ok {
        GenerateMissingMakes(r.world, last);
        MadeFromOneMore(init, last, w.secrets, r.world, GenerateMissing(r.world, last).world);
      } else {
        MadeFromOneMore(init, last, w.secrets, r.world, r.world);
      }
    }
  }

  lemma MadeFromOneMore(init: seq<UserToken>, last: UserToken, secrets: map<string, nat>, w: World, w': World)
    requires MadeFrom(init, secrets, w.secrets, w.tokens)
    requires forall n :: n in w.tokens ==> n in w'.tokens && w'.tokens[n] == w.tokens[n]
    requires w'.secrets == w.secrets
             || (last.name in w'.tokens && last.secretName !in w.secrets
                 && w'.secrets == w.secrets[last.secretName := w'.tokens[last.name]])
    ensures MadeFrom(init + [last], secrets, w'.secrets, w'.tokens)
  {
    forall s | s in w'.secrets && s !in secrets
      ensures exists t ::
                t in init + [last] && t.secretName == s && t.name in w'.tokens && w'.tokens[t.name] == w'.secrets[s]
    {
      if s in w.secrets {
        var t :| t in init && t.secretName == s && t.name in w.tokens && w.tokens[t.name] == w.secrets[s];
        assert t in init + [last];
      } else {
        assert last in init + [last];
      }
    }
  }

  // ----- what the Secrets hold -----

  /** Token values are never used twice. A Secret holds the live token of the name it was made under,
      unless it is dead, and then it holds no live token. */
  ghost predicate Agrees(w: World) {
    && (forall n :: n in w.tokens ==> w.tokens[n] < w.issued)
    && (forall n, m :: n in w.tokens && m in w.tokens && w.tokens[n] == w.tokens[m] ==> n == m)
    && w.dead <= w.secrets.Keys
    && (forall s :: s in w.secrets ==> SecretAgrees(w, s))
  }

  ghost predicate SecretAgrees(w: World, s: string)
    requires s in w.secrets
  {
    && s in w.origin && w.secrets[s] < w.issued
    && (forall n :: n in w.tokens && w.tokens[n] == w.secrets[s] ==> s !in w.dead && n == w.origin[s])
    && (s !in w.dead ==> w.origin[s] in w.tokens && w.tokens[w.origin[s]] == w.secrets[s])
  }

  lemma RevokeKeepsAgreement(w: World, name: string)
    requires Agrees(w)
    ensures Agrees(Revoke(w, name).world)
  {
    var w' := Revoke(w, name).world;
    forall s | s in w'.secrets ensures SecretAgrees(w', s) {
      assert SecretAgrees(w, s);
    }
  }

  lemma GenerateKeepsAgreement(w: World, name: string)
    requires Agrees(w)
    ensures Agrees(Generate(w, name))
  {
    var w' := Generate(w, name);
    forall s | s in w'.secrets ensures SecretAgrees(w', s) {
      assert SecretAgrees(w, s);
    }
  }

  lemma CreateKeepsAgreement(w: World, t: UserToken, token: nat)
    requires Agrees(w) && t.name in w.tokens && w.tokens[t.name] == token
    ensures Agrees(Create(w, t, token))
  {
    var w' := Create(w, t, token);
    forall s | s in w'.secrets ensures SecretAgrees(w', s) {
      assert s in w.secrets ==> SecretAgrees(w, s);
    }
  }

  lemma {:induction false} RevokeDroppedKeepsAgreement(w: World, managed: seq<string>, keep: set<string>)
    requires Agrees(w)
    ensures Agrees(RevokeDropped(w, managed, keep).world)
  {
    if managed != [] {
      RevokeDroppedKeepsAgreement(w, managed[..|managed| - 1], keep);
      RevokeKeepsAgreement(RevokeDropped(w, managed[..|managed| - 1], keep).world, managed[|managed| - 1]);
    }
  }

  lemma CalledAgrees(w: World)
    requires Agrees(w)
    ensures Agrees(Called(w))
  {
    forall s | s in w.secrets ensures SecretAgrees(Called(w), s) {
      assert SecretAgrees(w, s);
    }
  }

  lemma GenerateMissingKeepsAgreement(w: World, t: UserToken)
    requires Agrees(w)
    ensures Agrees(GenerateMissing(w, t).world)
  {
    CalledAgrees(w);
    GenerateKeepsAgreement(Called(w), t.name);
    if Generates(Called(w), t.name) {
      CreateKeepsAgreement(Generate(Called(w), t.name), t, w.issued);
    }
  }

  lemma {:induction false} GenerateAllKeepsAgreement(w: World, spec: seq<UserToken>)
    requires Agrees(w)
    ensures Agrees(GenerateAll(w, spec).world)
  {
    if spec != [] {
      GenerateAllKeepsAgreement(w, spec[..|spec| - 1]);
      GenerateMissingKeepsAgreement(GenerateAll(w, spec[..|spec| - 1]).world, spec[|spec| - 1]);
    }
  }

  lemma PassKeepsAgreement(w: World, managed: seq<string>, spec: seq<UserToken>)
    requires Agrees(w)
    ensures Agrees(Pass(w, managed, spec).world)
  {
    RevokeDroppedKeepsAgreement(w, managed, TokenNames(spec));
    GenerateAllKeepsAgreement(RevokeDropped(w, managed, TokenNames(spec)).world, spec);
  }

  // ----- what kills a Secret -----

  /** The managed names that left the spec, in list order. */
  function Dropped(managed: seq<string>, keep: set<string>): seq<string> {
    if managed == [] then []
    else
      var init, last := Dropped(managed[..|managed| - 1], keep), managed[|managed| - 1];
      if last in keep then init else init + [last]
  }

  /** The first n calls succeed. */
  predicate AllOk(w: World, n: nat) {
    n == 0 || (AllOk(w, n - 1) && Fate(w.net, w.calls + n - 1).Ok())
  }

  /** The k-th revocation of the pass is for this name, is reached, and takes effect. */
  ghost predicate RevokesAt(w: World, dropped: seq<string>, name: string, k: nat) {
    k < |dropped| && dropped[k] == name && AllOk(w, k) && Fate(w.net, w.calls + k).Effective()
  }

  ghost predicate Revokes(w: World, managed: seq<string>, keep: set<string>, name: string) {
    exists k :: RevokesAt(w, Dropped(managed, keep), name, k)
  }

  /** How far the revocations get. */
  lemma {:induction false} RevokeDroppedCalls(w: World, managed: seq<string>, keep: set<string>)
    ensures var r, n := RevokeDropped(w, managed, keep), |Dropped(managed, keep)|;
            && (r.ok <==> AllOk(w, n)) && (r.ok ==> r.world.calls == w.calls + n)
            && r.world.net == w.net && r.world.secrets == w.secrets && r.world.origin == w.origin
  {
    if managed != [] {
      var init := managed[..|managed| - 1];
      RevokeDroppedCalls(w, init, keep);
    }
  }

  /** One dropped name more. */
  lemma RevokesOneMore(w: World, dropped: seq<string>, last: string, name: string)
    ensures (exists k :: RevokesAt(w, dropped + [last], name, k)) <==>
            || (exists k :: RevokesAt(w, dropped, name, k))
            || (name == last && AllOk(w, |dropped|) && Fate(w.net, w.calls + |dropped|).Effective())
  {
    var all := dropped + [last];
    forall k: nat | k < |dropped| ensures RevokesAt(w, all, name, k) <==> RevokesAt(w, dropped, name, k) {
    }
    assert RevokesAt(w, all, name, |dropped|) <==>
           name == last && AllOk(w, |dropped|) && Fate(w.net, w.calls + |dropped|).Effective();
  }

  /** The revocations kill exactly the Secrets whose token name they revoke in effect. */
  lemma {:induction false} RevokeDroppedKills(w: World, managed: seq<string>, keep: set<string>, s: string)
    requires s in w.secrets && s in w.origin
    ensures s in RevokeDropped(w, managed, keep).world.dead <==>
            s in w.dead || Revokes(w, managed, keep, w.origin[s])
  {
    if managed != [] {
      var init, last := managed[..|managed| - 1], managed[|managed| - 1];
      RevokeDroppedKills(w, init, keep, s);
      RevokeDroppedCalls(w, init, keep);
      var r, dropped, name := RevokeDropped(w, init, keep), Dropped(init, keep), w.origin[s];
      if last !in keep {
        assert Dropped(managed, keep) == dropped + [last];
        RevokesOneMore(w, dropped, last, name);
        if r.ok {
          assert s in HeldUnder(r.world, last) <==> name == last;
          assert Now(r.world) == Fate(w.net, w.calls + |dropped|);
          assert RevokeDropped(w, managed, keep) == Revoke(r.world, last);
        } else {
          assert RevokeDropped(w, managed, keep) == r;
        }
        assert Revokes(w, managed, keep, name) <==> exists k :: RevokesAt(w, dropped + [last], name, k);
        assert Revokes(w, init, keep, name) <==> exists k :: RevokesAt(w, dropped, name, k);
      } else {
        assert Dropped(managed, keep) == dropped && RevokeDropped(w, managed, keep) == r;
        assert Revokes(w, managed, keep, name) <==> Revokes(w, init, keep, name);
      }
    }
  }

  /** Existing Secrets are as they were, and none has died. */
  ghost predicate KeepsSecrets(w: World, w': World) {
    && w'.dead == w.dead
    && (forall s :: s in w.secrets ==> s in w'.secrets && w'.secrets[s] == w.secrets[s])
    && (forall s :: s in w.secrets && s in w.origin ==> s in w'.origin && w'.origin[s] == w.origin[s])
  }

  lemma GenerateMissingKillsNothing(w: World, t: UserToken)
    ensures KeepsSecrets(w, GenerateMissing(w, t).world)
  {
  }

  lemma {:induction false} GenerateAllKillsNothing(w: World, spec: seq<UserToken>)
    ensures KeepsSecrets(w, GenerateAll(w, spec).world)
  {
    if spec != [] {
      var init := GenerateAll(w, spec[..|spec| - 1]);
      GenerateAllKillsNothing(w, spec[..|spec| - 1]);
      if init.ok {
        GenerateMissingKillsNothing(init.world, spec[|spec| - 1]);
      }
    }
  }

  // ----- whole runs -----

  datatype State = State(world: World, managed: seq<string>, spec: seq<UserToken>)

  /** A spec change, a pass and whether its status update went through, a user deleting a Secret. */
  datatype Step =
    | Edit(spec: seq<UserToken>)
    | PassOf(net: seq<Outcome>, persisted: bool)
    | DeleteSecret(name: string)

  function NameList(spec: seq<UserToken>): seq<string> {
    seq(|spec|, i requires 0 <= i < |spec| => spec[i].name)
  }

  function Facing(w: World, net: seq<Outcome>): World {
    w.(net := net, calls := 0)
  }

  function Next(s: State, step: Step): State {
    match step
    case Edit(spec) => s.(spec := spec)
    case PassOf(net, persisted) =>
      var r := Pass(Facing(s.world, net), s.managed, s.spec);
      s.(world := r.world, managed := if r.ok && persisted then NameList(s.spec) else s.managed)
    case DeleteSecret(name) =>
      s.(world := s.world.(secrets := s.world.secrets - {name}, origin := s.world.origin - {name},
                           dead := s.world.dead - {name}))
  }

  function Run(s: State, steps: seq<Step>): State {
    if steps == [] then s else Next(Run(s, steps[..|steps| - 1]), steps[|steps| - 1])
  }

  function Start(spec: seq<UserToken>): State {
    State(World([], 0, map[], 0, map[], map[], {}), [], spec)
  }

  /** The step is a pass that revokes in effect the token of an existing Secret: its name is managed and
      left the spec, the revocations before it succeeded, and its own took effect. */
  ghost predicate Kills(s: State, step: Step, secret: string) {
    && step.PassOf? && secret in s.world.secrets && secret in s.world.origin
    && Revokes(Facing(s.world, step.net), s.managed, TokenNames(s.spec), s.world.origin[secret])
  }

  lemma DeletionKeepsAgreement(w: World, name: string)
    requires Agrees(w)
    ensures Agrees(w.(secrets := w.secrets - {name}, origin := w.origin - {name}, dead := w.dead - {name}))
  {
    var w' := w.(secrets := w.secrets - {name}, origin := w.origin - {name}, dead := w.dead - {name});
    forall s | s in w'.secrets ensures SecretAgrees(w', s) {
      assert SecretAgrees(w, s);
    }
  }

  lemma FacingAgrees(w: World, net: seq<Outcome>)
    requires Agrees(w)
    ensures Agrees(Facing(w, net))
  {
    forall s | s in w.secrets ensures SecretAgrees(Facing(w, net), s) {
      assert SecretAgrees(w, s);
    }
  }

  lemma StepKeepsAgreement(s: State, step: Step)
    requires Agrees(s.world)
    ensures Agrees(Next(s, step).world)
  {
    match step
    case Edit(_) =>
    case PassOf(net, _) =>
      FacingAgrees(s.world, net);
      PassKeepsAgreement(Facing(s.world, net), s.managed, s.spec);
    case DeleteSecret(name) => DeletionKeepsAgreement(s.world, name);
  }

  lemma PassDeadExactly(w: World, managed: seq<string>, spec: seq<UserToken>, secret: string)
    requires Agrees(w)
    ensures secret in Pass(w, managed, spec).world.dead <==>
            secret in w.dead ||
            (secret in w.secrets && secret in w.origin && Revokes(w, managed, TokenNames(spec), w.origin[secret]))
  {
    var r := RevokeDropped(w, managed, TokenNames(spec));
    RevokeDroppedKeepsAgreement(w, managed, TokenNames(spec));
    RevokeDroppedCalls(w, managed, TokenNames(spec));
    GenerateAllKillsNothing(r.world, spec);
    if secret in w.secrets {
      assert SecretAgrees(w, secret);
      RevokeDroppedKills(w, managed, TokenNames(spec), secret);
    }
  }

  lemma DeadStep(s: State, step: Step, secret: string)
    requires Agrees(s.world)
    ensures secret in Next(s, step).world.dead <==>
            Kills(s, step, secret) || (secret in s.world.dead && step != DeleteSecret(secret))
  {
    if step.PassOf? {
      FacingAgrees(s.world, step.net);
      PassDeadExactly(Facing(s.world, step.net), s.managed, s.spec, secret);
    }
  }

  /** Step j killed the Secret and no user has deleted it since. */
  ghost predicate KilledSince(s: State, steps: seq<Step>, secret: string, j: nat) {
    && j < |steps| && Kills(Run(s, steps[..j]), steps[j], secret)
    && forall i :: j < i < |steps| ==> steps[i] != DeleteSecret(secret)
  }

  lemma KilledSinceInit(s: State, init: seq<Step>, last: Step, secret: string, j: nat)
    requires j < |init|
    ensures KilledSince(s, init + [last], secret, j) <==>
            KilledSince(s, init, secret, j) && last != DeleteSecret(secret)
  {
    var steps := init + [last];
    assert steps[..j] == init[..j] && steps[j] == init[j] && steps[|init|] == last;
    assert forall i :: j < i < |init| ==> steps[i] == init[i];
  }

  lemma {:induction false} DeadExactly(spec: seq<UserToken>, steps: seq<Step>, secret: string)
    ensures Agrees(Run(Start(spec), steps).world)
    ensures secret in Run(Start(spec), steps).world.dead <==> exists j :: KilledSince(Start(spec), steps, secret, j)
  {
    if steps != [] {
      var s, n := Start(spec), |steps| - 1;
      var init, last := steps[..n], steps[n];
      assert steps == init + [last];
      DeadExactly(spec, init, secret);
      StepKeepsAgreement(Run(s, init), last);
      DeadStep(Run(s, init), last, secret);
      forall j | 0 <= j < n
        ensures KilledSince(s, steps, secret, j) <==> KilledSince(s, init, secret, j) && last != DeleteSecret(secret)
      {
        KilledSinceInit(s, init, last, secret, j);
      }
      assert KilledSince(s, steps, secret, n) <==> Kills(Run(s, init), last, secret);
    }
  }

  /** Secret and token agreement, exactly: over every run with changing specs, failures at any call and
      lost status updates, an existing Secret holds a live token exactly when no pass has revoked the
      name it was made under since, and then it holds the token of that name. */
  lemma SecretHoldsLiveToken(spec: seq<UserToken>, steps: seq<Step>, secret: string)
    ensures var w := Run(Start(spec), steps).world;
            secret in w.secrets ==>
              && secret in w.origin
              && ((exists n :: n in w.tokens && w.tokens[n] == w.secrets[secret]) <==>
                  !exists j :: KilledSince(Start(spec), steps, secret, j))
              && (forall n :: n in w.tokens && w.tokens[n] == w.secrets[secret] ==> n == w.origin[secret])
  {
    DeadExactly(spec, steps, secret);
    var w := Run(Start(spec), steps).world;
    if secret in w.secrets {
      assert SecretAgrees(w, secret);
    }
  }

  // ----- it does happen -----

  lemma RunOneMore(s: State, steps: seq<Step>, step: Step)
    ensures Run(s, steps + [step]) == Next(Run(s, steps), step)
  {
    assert (steps + [step])[..|steps|] == steps;
  }

  /** A pass without failures for one entry whose Secret and token name are free. */
  lemma FirstPass(s: State, t: UserToken)
    requires s.spec == [t] && s.managed == [] && t.secretName !in s.world.secrets && t.name !in s.world.tokens
    ensures var s' := Next(s, PassOf([], true));
            && s'.managed == [t.name] && s'.spec == [t] && t.name in s'.world.tokens
            && s'.world.secrets == s.world.secrets[t.secretName := s.world.issued]
            && s'.world.origin == s.world.origin[t.secretName := t.name]
            && s'.world.tokens == s.world.tokens[t.name := s.world.issued] && s'.world.dead == s.world.dead
  {
    var w := Facing(s.world, []);
    assert [t][..0] == [];
    assert GenerateAll(w, [t]) == GenerateMissing(w, t);
  }

  /** A pass without failures after the only managed entry left the spec and the Secrets of all new
      entries exist. */
  lemma RenamingPass(s: State, old_: string, t: UserToken)
    requires s.spec == [t] && s.managed == [old_] && t.name != old_ && t.secretName in s.world.secrets
    ensures var s' := Next(s, PassOf([], true));
            && s'.managed == [t.name] && s'.world.tokens == s.world.tokens - {old_}
            && s'.world.secrets == s.world.secrets
            && s'.world.dead == s.world.dead + HeldUnder(s.world, old_)
  {
    var w := Facing(s.world, []);
    assert TokenNames([t]) == {t.name};
    assert [old_][..0] == [] && [t][..0] == [];
    assert RevokeDropped(w, [old_], {t.name}) == Revoke(w, old_);
    var w1 := Revoke(w, old_).world;
    assert HeldUnder(w, old_) == HeldUnder(s.world, old_);
    assert GenerateAll(w1, [t]) == GenerateMissing(w1, t);
  }

  /** Renaming an entry that keeps its Secret kills the Secret, although no call fails: the old token is
      revoked, the Secret exists, and so the new token is never generated. */
  lemma RenameLeavesDeadSecret(old_: string, new_: string, secret: string)
    requires old_ != new_
    ensures var s := Run(Start([UserToken(old_, secret)]),
                         [PassOf([], true), Edit([UserToken(new_, secret)]), PassOf([], true)]);
            && secret in s.world.secrets && secret in s.world.dead && s.world.tokens == map[]
            && s.managed == [new_]
  {
    var t, t' := UserToken(old_, secret), UserToken(new_, secret);
    var s0 := Start([t]);
    RunThree(s0, PassOf([], true), Edit([t']), PassOf([], true));
    FirstPass(s0, t);
    var s1 := Next(s0, PassOf([], true));
    EditThenRename(s1, old_, t');
  }

  lemma EditThenRename(s: State, old_: string, t: UserToken)
    requires s.managed == [old_] && t.name != old_ && t.secretName in s.world.secrets
    requires t.secretName in s.world.origin && s.world.origin[t.secretName] == old_
    ensures var s' := Next(Next(s, Edit([t])), PassOf([], true));
            && s'.managed == [t.name] && s'.world.tokens == s.world.tokens - {old_}
            && t.secretName in s'.world.secrets && t.secretName in s'.world.dead
  {
    var s1 := Next(s, Edit([t]));
    RenamingPass(s1, old_, t);
    assert t.secretName in HeldUnder(s1.world, old_);
  }

  lemma RunThree(s: State, a: Step, b: Step, c: Step)
    ensures Run(s, [a, b, c]) == Next(Next(Next(s, a), b), c)
  {
    assert [] + [a] == [a] && [a] + [b] == [a, b] && [a, b] + [c] == [a, b, c];
    RunOneMore(s, [], a);
    RunOneMore(s, [a], b);
    RunOneMore(s, [a, b], c);
  }
}
