/** The managed parts of a SonarQubeUser: groups, standalone tokens and global permissions
    (internal/controller/sonarqubeuser_controller.go). */
module UserController {
  import opened Outcomes
  import opened Text
  import opened ManagedSet
  import opened Remote
  import U = UserTokens

  /** The spec is fixed during a pass; the status lists are overwritten at its end. */
  class User {
    const groups: seq<string>
    const tokens: seq<U.UserToken>
    const globalPermissions: seq<string>
    var statusGroups: seq<string>
    var managedTokens: seq<string>
    var managedGlobalPermissions: seq<string>

    constructor (groups: seq<string>, tokens: seq<U.UserToken>, globalPermissions: seq<string>)
      ensures this.groups == groups && this.tokens == tokens && this.globalPermissions == globalPermissions
      ensures statusGroups == managedTokens == managedGlobalPermissions == []
    {
      this.groups, this.tokens, this.globalPermissions := groups, tokens, globalPermissions;
      statusGroups, managedTokens, managedGlobalPermissions := [], [], [];
    }
  }

  lemma ElementsOneMore(xs: seq<string>, i: nat)
    requires i < |xs|
    ensures Elements(xs[..i + 1]) == Elements(xs[..i]) + {xs[i]} && xs[i] in Elements(xs)
  {
    assert xs[..i + 1] == xs[..i] + [xs[i]];
  }

  /** Adds every item of xs that is not in skip, in list order. */
  method AddEach(xs: seq<string>, skip: set<string>, server: RemoteSet<string>)
    returns (ok: bool, ghost added: set<string>)
    modifies server`live, server`calls, server`errors
    ensures added <= Elements(xs) - skip && server.live == old(server.live) + added
    ensures old(server.errors) <= server.errors && (ok <==> server.errors == old(server.errors))
    ensures ok ==> added == Elements(xs) - skip
    ensures Elements(xs) <= skip ==> ok && server.calls == old(server.calls)
  {
    added, ok := {}, true;
    ghost var did := {};
    for i := 0 to |xs|
      invariant added == Elements(xs[..i]) - skip
      invariant server.live == old(server.live) + added
      invariant ok && server.errors == old(server.errors)
      invariant Elements(xs) <= skip ==> server.calls == old(server.calls)
    {
      ElementsOneMore(xs, i);
      if xs[i] in skip {
        continue;
      }
      ok, did := server.Add(xs[i]);
      added := added + did;
      if !ok {
        return;
      }
    }
    assert xs[..|xs|] == xs;
  }

  /** Removes every item of xs that is not in keep and, when the live set was read, is in it. */
  method RemoveEach(xs: seq<string>, keep: set<string>, current: Option<set<string>>, server: RemoteSet<string>)
    returns (ok: bool, ghost removed: set<string>)
    modifies server`live, server`calls, server`errors
    ensures removed <= Elements(xs) - keep && server.live == old(server.live) - removed
    ensures old(server.errors) <= server.errors && (ok <==> server.errors == old(server.errors))
    ensures ok ==> removed == if current.None? then Elements(xs) - keep else (Elements(xs) - keep) * current.value
    ensures Elements(xs) <= keep ==> ok && server.calls == old(server.calls)
  {
    removed, ok := {}, true;
    ghost var did := {};
    for i := 0 to |xs|
      invariant removed ==
                if current.None? then Elements(xs[..i]) - keep else (Elements(xs[..i]) - keep) * current.value
      invariant server.live == old(server.live) - removed
      invariant ok && server.errors == old(server.errors)
      invariant Elements(xs) <= keep ==> server.calls == old(server.calls)
    {
      ElementsOneMore(xs, i);
      assert Elements(xs[..i]) <= Elements(xs);
      if xs[i] in keep || (current.Some? && xs[i] !in current.value) {
        continue;
      }
      ok, did := server.Remove(xs[i]);
      removed := removed + did;
      if !ok {
        return;
      }
    }
    assert xs[..|xs|] == xs;
  }

  // ----- groups: live set read, adds before removals -----

  method ReconcileGroups(user: User, server: RemoteSet<string>) returns (ok: bool, ghost fx: Effects<string>)
    modifies user`statusGroups, server`live, server`calls, server`errors
    ensures var managed, wanted := Elements(old(user.statusGroups)), Elements(user.groups);
            && IsPass(old(server.live), managed, wanted, fx, ok)
            && server.live == After(old(server.live), fx)
            && (ok ==> server.live == Target(old(server.live), managed, wanted))
    ensures ok <==> server.errors == old(server.errors)
    ensures user.statusGroups == if ok then user.groups else old(user.statusGroups)
    ensures user.groups == old(user.statusGroups) == [] ==> server.calls == old(server.calls)
  {
    ghost var live, managed, wanted := server.live, Elements(user.statusGroups), Elements(user.groups);
    ghost var added, removed := {}, {};
    fx := Effects({}, {});
    if |user.groups| == 0 && |user.statusGroups| == 0 {
      return true, fx;
    }
    var current := server.List();
    if current.None? {
      return false, fx;
    }

    ok, added := AddEach(user.groups, current.value, server);
    fx := Effects(added, {});
    if !ok {
      return;
    }
    ok, removed := RemoveEach(user.statusGroups, Elements(user.groups), current, server);
    fx := Effects(added, removed);
    if !ok {
      return;
    }
    user.statusGroups := user.groups;
    OneFinalState(live, managed, wanted, fx);
  }

  // ----- global permissions: no live set, only what changed -----

  method ReconcileUserGlobalPermissions(user: User, server: RemoteSet<string>)
    returns (ok: bool, ghost fx: Effects<string>)
    modifies user`managedGlobalPermissions, server`live, server`calls, server`errors
    ensures var managed, wanted := Elements(old(user.managedGlobalPermissions)), Elements(user.globalPermissions);
            && IsPass(old(server.live), managed, wanted, fx, ok)
            && server.live == After(old(server.live), fx)
            && (ok ==> fx == Effects(wanted - managed, managed - wanted))
            && (managed == wanted ==> ok && server.calls == old(server.calls))
    ensures ok <==> server.errors == old(server.errors)
    ensures user.managedGlobalPermissions == if ok then user.globalPermissions else old(user.managedGlobalPermissions)
  {
    ghost var added, removed := {}, {};
    var desired, managed := Elements(user.globalPermissions), Elements(user.managedGlobalPermissions);

    ok, removed := RemoveEach(user.managedGlobalPermissions, desired, None, server);
    fx := Effects({}, removed);
    if !ok {
      return;
    }
    ok, added := AddEach(user.globalPermissions, managed, server);
    fx := Effects(added, removed);
    if !ok {
      return;
    }
    user.managedGlobalPermissions := user.globalPermissions;
  }

  /** The fast form, which grants only what is new, refines the simple form, which grants everything
      again: both end in the same state exactly when no managed wanted permission has been taken away
      behind the operator's back. */
  lemma FastFormRefinesSimpleForm<T>(live: set<T>, managed: set<T>, wanted: set<T>)
    ensures After(live, Effects(wanted - managed, managed - wanted)) ==
            After(live, Effects(wanted, managed - wanted)) <==>
            managed * wanted <= live
  {
    var fast := After(live, Effects(wanted - managed, managed - wanted));
    var simple := After(live, Effects(wanted, managed - wanted));
    if fast == simple {
      forall x | x in managed * wanted ensures x in live {
        assert x in simple;
      }
    }
  }

  /** In the good case that common state is the target. */
  lemma FastFormReachesTarget<T>(live: set<T>, managed: set<T>, wanted: set<T>)
    ensures After(live, Effects(wanted - managed, managed - wanted)) == Target(live, managed, wanted) <==>
            managed * wanted <= live
  {
    FastFormRefinesSimpleForm(live, managed, wanted);
    var all := Effects(wanted, managed - wanted);
    OneFinalState(live, managed, wanted, all);
  }

  // ----- standalone tokens -----

  /** The tokens of one user on the server, and the Secrets of the user's namespace. */
  class TokenStore {
    const net: seq<Outcome>
    var tokens: map<string, nat>
    var issued: nat
    var secrets: map<string, nat>
    var calls: nat
    var errors: nat
    ghost var origin: map<string, string>
    ghost var dead: set<string>

    constructor (net: seq<Outcome>)
      ensures this.net == net && tokens == map[] && issued == 0 && secrets == map[] && calls == errors == 0
      ensures origin == map[] && dead == {}
    {
      this.net, tokens, issued, secrets, calls, errors := net, map[], 0, map[], 0, 0;
      origin, dead := map[], {};
    }

    ghost function Look(): U.World
      reads this
    {
      U.World(net, calls, tokens, issued, secrets, origin, dead)
    }

    method RevokeUserToken(name: string) returns (ok: bool, ghost did: set<string>)
      modifies this`tokens, this`calls, this`errors, this`dead
      ensures U.Result(Look(), ok) == U.Revoke(old(Look()), name)
      ensures calls == old(calls) + 1 && errors == old(errors) + Miss(ok)
      ensures ok == Fate(net, old(calls)).Ok()
      ensures did == (if Fate(net, old(calls)).Effective() then {name} else {}) && tokens == old(tokens) - did
    {
      did := {};
      if Fate(net, calls).Effective() {
        did := {name};
        dead := dead + U.HeldUnder(Look(), name);
        tokens := tokens - {name};
      }
      ok := Fate(net, calls).Ok();
      calls, errors := calls + 1, errors + Miss(ok);
    }

    /** Some(whether the Secret exists), or None on an error other than "not found". */
    method SecretExists(name: string) returns (found: Option<bool>)
      modifies this`calls, this`errors
      ensures calls == old(calls) + 1 && errors == old(errors) + Miss(found.Some?)
      ensures found == if Fate(net, old(calls)).Ok() then Some(name in secrets) else None
      ensures Look() == U.Called(old(Look()))
    {
      found := if Fate(net, calls).Ok() then Some(name in secrets) else None;
      calls, errors := calls + 1, errors + Miss(found.Some?);
    }

    /** A live name is refused. */
    method GenerateUserToken(name: string) returns (token: Option<nat>, ghost did: set<string>)
      modifies this`tokens, this`issued, this`calls, this`errors
      ensures calls == old(calls) + 1 && errors == old(errors) + Miss(token.Some?)
      ensures did == if Fate(net, old(calls)).Effective() && name !in old(tokens) then {name} else {}
      ensures tokens == if did == {} then old(tokens) else old(tokens)[name := old(issued)]
      ensures issued == if did == {} then old(issued) else old(issued) + 1
      ensures token == if did != {} && Fate(net, old(calls)).Ok() then Some(old(issued)) else None
      ensures Look() == U.Generate(old(Look()), name) && (did != {} <==> U.Generates(old(Look()), name))
    {
      did, token := {}, None;
      if Fate(net, calls).Effective() && name !in tokens {
        did := {name};
        tokens := tokens[name := issued];
        if Fate(net, calls).Ok() {
          token := Some(issued);
        }
        issued := issued + 1;
      }
      calls, errors := calls + 1, errors + Miss(token.Some?);
    }

    /** An existing Secret is refused. */
    method CreateSecret(name: string, token: nat, ghost tokenName: string) returns (ok: bool)
      modifies this`secrets, this`calls, this`errors, this`origin
      ensures calls == old(calls) + 1 && errors == old(errors) + Miss(ok)
      ensures var creates := Fate(net, old(calls)).Effective() && name !in old(secrets);
              && secrets == (if creates then old(secrets)[name := token] else old(secrets))
              && ok == (creates && Fate(net, old(calls)).Ok())
      ensures Look() == U.Create(old(Look()), U.UserToken(tokenName, name), token)
    {
      ok := false;
      if Fate(net, calls).Effective() && name !in secrets {
        secrets := secrets[name := token];
        origin := origin[name := tokenName];
        ok := Fate(net, calls).Ok();
      }
      calls, errors := calls + 1, errors + Miss(ok);
    }
  }

  method RevokeDropped(managed: seq<string>, keep: set<string>, store: TokenStore)
    returns (ok: bool, ghost removed: set<string>)
    modifies store`tokens, store`calls, store`errors, store`dead
    ensures U.Result(store.Look(), ok) == U.RevokeDropped(old(store.Look()), managed, keep)
    ensures removed <= Elements(managed) - keep && store.tokens == old(store.tokens) - removed
    ensures old(store.errors) <= store.errors && (ok <==> store.errors == old(store.errors))
    ensures ok ==> removed == Elements(managed) - keep
  {
    removed, ok := {}, true;
    ghost var w, did := store.Look(), {};
    for i := 0 to |managed|
      invariant U.Result(store.Look(), true) == U.RevokeDropped(w, managed[..i], keep)
      invariant ok && store.errors == old(store.errors)
    {
      U.RevokeDroppedPrefix(w, managed, keep, i);
      if managed[i] in keep {
        continue;
      }
      ok, did := store.RevokeUserToken(managed[i]);
      if !ok {
        break;
      }
    }
    assert managed[..|managed|] == managed;
    U.RevokeDroppedTakes(w, managed, keep);
    removed := if ok then Elements(managed) - keep else w.tokens.Keys - store.tokens.Keys;
  }

  /** Makes one spec entry's Secret if it is missing. */
  method GenerateMissing(t: U.UserToken, store: TokenStore) returns (ok: bool, ghost added: set<string>)
    modifies store`tokens, store`issued, store`secrets, store`calls, store`errors, store`origin
    ensures U.Result(store.Look(), ok) == U.GenerateMissing(old(store.Look()), t)
    ensures added <= {t.name} && added !! old(store.tokens).Keys
    ensures store.tokens.Keys == old(store.tokens).Keys + added
    ensures forall n :: n in old(store.tokens) ==> store.tokens[n] == old(store.tokens)[n]
    ensures store.secrets == old(store.secrets)
            || (t.secretName !in old(store.secrets) && t.name in store.tokens
                && store.secrets == old(store.secrets)[t.secretName := store.tokens[t.name]])
    ensures old(store.errors) <= store.errors && (ok <==> store.errors == old(store.errors))
    ensures ok ==> t.secretName in store.secrets
  {
    added := {};
    var found := store.SecretExists(t.secretName);
    if found.None? {
      return false, {};
    }
    if found.value {
      return true, {};
    }
    var token;
    token, added := store.GenerateUserToken(t.name);
    if token.None? {
      return false, added;
    }
    ok := store.CreateSecret(t.secretName, token.value, t.name);
  }

  /** Every entry in spec order, up to the first error. */
  method GenerateTokens(spec: seq<U.UserToken>, store: TokenStore) returns (ok: bool, ghost added: set<string>)
    modifies store`tokens, store`issued, store`secrets, store`calls, store`errors, store`origin
    ensures U.Result(store.Look(), ok) == U.GenerateAll(old(store.Look()), spec)
    ensures added <= U.TokenNames(spec) && store.tokens.Keys == old(store.tokens).Keys + added
    ensures forall s :: s in old(store.secrets) ==> s in store.secrets && store.secrets[s] == old(store.secrets)[s]
    ensures U.MadeFrom(spec, old(store.secrets), store.secrets, store.tokens)
    ensures old(store.errors) <= store.errors && (ok <==> store.errors == old(store.errors))
    ensures ok ==> forall t :: t in spec ==> t.secretName in store.secrets
  {
    added, ok := {}, true;
    ghost var w, did := store.Look(), {};
    for i := 0 to |spec|
      invariant U.Result(store.Look(), true) == U.GenerateAll(w, spec[..i])
      invariant ok && store.errors == old(store.errors)
    {
      U.GenerateAllPrefix(w, spec, i);
      ok, did := GenerateMissing(spec[i], store);
      if !ok {
        break;
      }
    }
    assert spec[..|spec|] == spec;
    U.GenerateAllMakes(w, spec);
    added := store.tokens.Keys - w.tokens.Keys;
  }

  method NamesOf(tokens: seq<U.UserToken>) returns (names: seq<string>)
    ensures names == U.NameList(tokens) && Elements(names) == U.TokenNames(tokens)
  {
    names := [];
    for i := 0 to |tokens|
      invariant names == U.NameList(tokens[..i]) && Elements(names) == U.TokenNames(tokens[..i])
    {
      assert Elements(names + [tokens[i].name]) == Elements(names) + {tokens[i].name};
      assert U.TokenNames(tokens[..i + 1]) == U.TokenNames(tokens[..i]) + {tokens[i].name};
      names := names + [tokens[i].name];
    }
    assert tokens[..|tokens|] == tokens;
  }

  /** Tokens dropped from the spec are revoked; their Secrets are never deleted. Tokens are generated
      only for missing Secrets, so the names wanted here need not all be live. */
  method ReconcileUserTokens(user: User, store: TokenStore) returns (ok: bool, ghost fx: Effects<string>)
    modifies user`managedTokens
    modifies store`tokens, store`issued, store`secrets, store`calls, store`errors, store`origin, store`dead
    ensures U.Result(store.Look(), ok) == U.Pass(old(store.Look()), old(user.managedTokens), user.tokens)
    ensures user.managedTokens == if ok then U.NameList(user.tokens) else old(user.managedTokens)
    ensures var managed, wanted := Elements(old(user.managedTokens)), U.TokenNames(user.tokens);
            && IsPass(old(store.tokens).Keys, managed, wanted, fx, ok)
            && store.tokens.Keys == After(old(store.tokens).Keys, fx)
    ensures ok <==> store.errors == old(store.errors)
    ensures forall s :: s in old(store.secrets) ==> s in store.secrets && store.secrets[s] == old(store.secrets)[s]
    ensures U.MadeFrom(user.tokens, old(store.secrets), store.secrets, store.tokens)
    ensures ok ==> forall t :: t in user.tokens ==> t.secretName in store.secrets
    ensures ok ==> Elements(user.managedTokens) == U.TokenNames(user.tokens)
  {
    ghost var removed, added := {}, {};
    ok, removed := RevokeDropped(user.managedTokens, U.TokenNames(user.tokens), store);
    fx := Effects({}, removed);
    if !ok {
      return;
    }
    ok, added := GenerateTokens(user.tokens, store);
    fx := Effects(added, removed);
    if !ok {
      return;
    }
    user.managedTokens := NamesOf(user.tokens);
  }
}
