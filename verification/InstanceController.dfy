/** The instance and plugin controllers in their own form: methods that make calls on one SonarQube
    server and update one SonarQubeInstance status, proved to take exactly the steps of Restart and
    Bootstrap. */
module InstanceController {
  import opened Outcomes
  import Bootstrap
  import Batch = Restart

  datatype InstalledPlugin = InstalledPlugin(key: string, version: string)

  ghost predicate ListsPlugins(list: seq<InstalledPlugin>, installed: map<string, string>) {
    && (forall i :: 0 <= i < |list| ==> list[i].key in installed && installed[list[i].key] == list[i].version)
    && (forall k :: k in installed ==> exists i :: 0 <= i < |list| && list[i].key == k)
  }

  /** The server: plugins, and the admin account. */
  class SonarServer {
    var installed: map<string, string>
    var loaded: map<string, string>
    var password: string
    var tokens: map<string, nat>
    var issued: nat
    ghost var changes: nat
    ghost var restarts: nat
    ghost var passwordChanges: nat
    ghost var authCalls: nat

    constructor (plugins: map<string, string>)
      ensures installed == loaded == plugins && password == Bootstrap.DEFAULT_ADMIN_PASSWORD && tokens == map[]
      ensures issued == changes == restarts == passwordChanges == authCalls == 0
    {
      installed, loaded, password, tokens, issued := plugins, plugins, Bootstrap.DEFAULT_ADMIN_PASSWORD, map[], 0;
      changes, restarts, passwordChanges, authCalls := 0, 0, 0, 0;
    }

    /** The installed plugins in some order. */
    method ListInstalledPlugins() returns (list: seq<InstalledPlugin>)
      ensures ListsPlugins(list, installed)
    {
      list := [];
      var rest := installed.Keys;
      while rest != {}
        invariant rest <= installed.Keys
        invariant forall i :: 0 <= i < |list| ==> list[i].key in installed && installed[list[i].key] == list[i].version
        invariant forall k :: k in installed ==> k in rest || exists i :: 0 <= i < |list| && list[i].key == k
      {
        var k :| k in rest;
        var longer := list + [InstalledPlugin(k, installed[k])];
        assert longer[|list|].key == k;
        assert forall i :: 0 <= i < |list| ==> longer[i] == list[i];
        list, rest := longer, rest - {k};
      }
    }

    method InstallPlugin(key: string, version: string, o: Outcome) returns (ok: bool)
      modifies this`installed, this`changes
      ensures ok == o.Ok()
      ensures installed == if o.Effective() then old(installed)[key := version] else old(installed)
      ensures changes == if o.Effective() then old(changes) + 1 else old(changes)
    {
      if o.Effective() {
        installed, changes := installed[key := version], changes + 1;
      }
      return o.Ok();
    }

    method UninstallPlugin(key: string, o: Outcome) returns (ok: bool)
      modifies this`installed, this`changes
      ensures ok == o.Ok()
      ensures installed == if o.Effective() then old(installed) - {key} else old(installed)
      ensures changes == if o.Effective() then old(changes) + 1 else old(changes)
    {
      if o.Effective() {
        installed, changes := installed - {key}, changes + 1;
      }
      return o.Ok();
    }

    method Restart(o: Outcome) returns (ok: bool)
      modifies this`loaded, this`restarts
      ensures ok == o.Ok()
      ensures loaded == if o.Effective() then installed else old(loaded)
      ensures restarts == if o.Effective() then old(restarts) + 1 else old(restarts)
    {
      if o.Effective() {
        loaded, restarts := installed, restarts + 1;
      }
      return o.Ok();
    }

    method ValidateAuth(candidate: string, o: Outcome) returns (ok: bool)
      modifies this`authCalls
      ensures authCalls == old(authCalls) + 1 && ok == (o.Ok() && password == candidate)
    {
      authCalls := authCalls + 1;
      return o.Ok() && password == candidate;
    }

    method ChangeAdminPassword(current: string, next: string, o: Outcome) returns (ok: bool)
      modifies this`password, this`passwordChanges, this`authCalls
      ensures authCalls == old(authCalls) + 1 && ok == (o.Ok() && old(password) == current)
      ensures var changes := o.Effective() && old(password) == current;
              && password == (if changes then next else old(password))
              && passwordChanges == old(passwordChanges) + Batch.One(changes)
    {
      authCalls := authCalls + 1;
      ok := o.Ok() && password == current;
      if o.Effective() && password == current {
        password, passwordChanges := next, passwordChanges + 1;
      }
    }

    method GenerateToken(candidate: string, name: string, o: Outcome) returns (token: Option<nat>)
      modifies this`tokens, this`issued, this`authCalls
      ensures authCalls == old(authCalls) + 1
      ensures var generates := o.Effective() && password == candidate && name !in old(tokens);
              && tokens == (if generates then old(tokens)[name := old(issued)] else old(tokens))
              && issued == old(issued) + Batch.One(generates)
              && token == if generates && o.Ok() then Some(old(issued)) else None
    {
      authCalls := authCalls + 1;
      token := None;
      if o.Effective() && password == candidate && name !in tokens {
        tokens := tokens[name := issued];
        if o.Ok() {
          token := Some(issued);
        }
        issued := issued + 1;
      }
    }
  }

  /** The SonarQubeInstance as stored: its status, and the Secret with the operator's token. */
  class Instance {
    const deleting: bool
    var restartRequired: bool
    var ready: bool
    var tokenSecret: Option<nat>
    ghost var unclear: nat
    ghost var dangling: set<string>

    constructor (deleting: bool)
      ensures this.deleting == deleting && !restartRequired && !ready && tokenSecret == None
      ensures unclear == 0 && dangling == {}
    {
      this.deleting, restartRequired, ready, tokenSecret, unclear, dangling := deleting, false, false, None, 0, {};
    }

    ghost function Plugins(server: SonarServer): Batch.System
      reads this, server
    {
      Batch.System(server.installed, server.loaded, restartRequired, ready, deleting,
                     server.changes, server.restarts, unclear, dangling)
    }

    ghost function Admin(server: SonarServer): Bootstrap.Admin
      reads this, server
    {
      Bootstrap.Admin(
        server.password, server.tokens, server.issued, tokenSecret, server.passwordChanges, server.authCalls)
    }

    method CreateTokenSecret(token: nat, o: Outcome) returns (ok: bool)
      modifies this`tokenSecret
      ensures ok == (o.Ok() && old(tokenSecret).None?)
      ensures tokenSecret == if o.Effective() && old(tokenSecret).None? then Some(token) else old(tokenSecret)
    {
      ok := o.Ok() && tokenSecret.None?;
      if o.Effective() && tokenSecret.None? {
        tokenSecret := Some(token);
      }
    }

    /** Status().Update with the values the pass holds in memory. */
    method UpdateStatus(restartRequired: bool, ready: bool, o: Outcome)
      modifies this`restartRequired, this`ready
      ensures this.restartRequired == if o.Effective() then restartRequired else old(this.restartRequired)
      ensures this.ready == if o.Effective() then ready else old(this.ready)
    {
      if o.Effective() {
        this.restartRequired, this.ready := restartRequired, ready;
      }
    }
  }

  // ----- instance controller -----

  method InitializeAdmin(server: SonarServer, instance: Instance, name: string, target: string, e: Bootstrap.Env)
    returns (ok: bool)
    modifies server`password, server`tokens, server`issued, server`passwordChanges, server`authCalls
    modifies instance`tokenSecret
    ensures Bootstrap.Result(instance.Admin(server), ok) == Bootstrap.Pass(old(instance.Admin(server)), name, target, e)
    ensures ok ==> instance.tokenSecret.Some?
  {
    if e.getSecret.Ok() && instance.tokenSecret.Some? {
      return true;
    }
    if !e.readPassword.Ok() || target == "" {
      return false;
    }
    var valid := server.ValidateAuth(target, e.validate);
    if !valid {
      var changed := server.ChangeAdminPassword(Bootstrap.DEFAULT_ADMIN_PASSWORD, target, e.change);
      if !changed {
        return false;
      }
    }
    var token := server.GenerateToken(target, name, e.generate);
    if token.None? {
      return false;
    }
    ok := instance.CreateTokenSecret(token.value, e.create);
  }

  /** reconcileHealth and the status update that follows it. */
  method ReconcileInstance(
      server: SonarServer, instance: Instance, name: string, target: string, e: Batch.InstanceEnv, boot: Bootstrap.Env)
    modifies server, instance
    ensures var pass := Bootstrap.Pass(old(instance.Admin(server)), name, target, boot);
            var reached := e.status.Ok() && e.up;
            && instance.Admin(server) == (if reached then pass.admin else old(instance.Admin(server)))
            && instance.Plugins(server) == Batch.ReconcileInstance(old(instance.Plugins(server)), e.(admin := pass.ok))
            && instance.ready == (if e.update.Effective() then reached && pass.ok && !old(instance.restartRequired)
                                  else old(instance.ready))
  {
    ghost var before, passed := instance.Plugins(server), Bootstrap.Pass(instance.Admin(server), name, target, boot).ok;
    Batch.InstancePassExactly(before, e.(admin := passed));
    var restartRequired := instance.restartRequired;
    if !e.status.Ok() || !e.up {
      instance.UpdateStatus(restartRequired, false, e.update);
      return;
    }
    var initialized := InitializeAdmin(server, instance, name, target, boot);
    if !initialized {
      instance.UpdateStatus(restartRequired, false, e.update);
      return;
    }
    RestartIfRequired(server, instance, e.(admin := true));
  }

  /** The end of a pass on a server that is up and initialized. */
  method RestartIfRequired(server: SonarServer, instance: Instance, e: Batch.InstanceEnv)
    requires e.status.Ok() && e.up && e.admin
    modifies server`loaded, server`restarts
    modifies instance`restartRequired, instance`ready, instance`unclear, instance`dangling
    ensures instance.Plugins(server) == Batch.ReconcileInstance(old(instance.Plugins(server)), e)
  {
    var restartRequired := instance.restartRequired;
    if restartRequired {
      if e.token.Ok() {
        var restarted := server.Restart(e.restart);
        if restarted {
          restartRequired := false;
        }
        if e.restart.Effective() {
          instance.dangling := {};
          instance.unclear := instance.unclear + Batch.One(!(restarted && e.update.Effective()));
        }
      }
      instance.UpdateStatus(restartRequired, false, e.update);
      return;
    }
    instance.UpdateStatus(restartRequired, true, e.update);
  }

  // ----- plugin controller -----

  /** copyFlag is the flag in the copy of the instance the pass works on. */
  method SignalInstanceRestart(instance: Instance, copyFlag: bool, o: Outcome)
    modifies instance`restartRequired
    ensures instance.restartRequired ==
            (old(instance.restartRequired) || (!copyFlag && !instance.deleting && o.Effective()))
  {
    if copyFlag || instance.deleting {
      return;
    }
    if o.Effective() {
      instance.restartRequired := true;
    }
  }

  method InstallPlugin(server: SonarServer, instance: Instance, p: Batch.Plugin, e: Batch.PluginEnv) returns (ok: bool)
    modifies server`installed, server`changes, instance`restartRequired, instance`dangling
    ensures instance.Plugins(server) == Batch.InstallPlugin(old(instance.Plugins(server)), p, e)
    ensures ok == if e.install.ConsentRequired? then e.acknowledge.Ok() && e.retry.Ok() else e.install.outcome.Ok()
  {
    var version := if p.version == "" then e.latest else p.version;
    match e.install {
      case Tried(o) =>
        ok := server.InstallPlugin(p.key, version, o);
      case ConsentRequired =>
        ok := false;
        if e.acknowledge.Ok() {
          ok := server.InstallPlugin(p.key, version, e.retry);
        }
    }
    if !ok {
      return;
    }
    instance.dangling := instance.dangling - {p.key};
    SignalInstanceRestart(instance, if e.copy.Fresh? then instance.restartRequired else e.copy.flag, e.patch);
  }

  /** ok is false when the pass returns an error, which it does for a failed list, uninstall or install
      but not while it waits for the instance or for a source URL. */
  method ReconcilePlugin(server: SonarServer, instance: Instance, p: Batch.Plugin, e: Batch.PluginEnv)
    returns (ok: bool)
    modifies server`installed, server`changes, instance`restartRequired, instance`dangling
    ensures instance.Plugins(server) == Batch.ReconcilePlugin(old(instance.Plugins(server)), p, e)
    ensures var ready := if e.copy.Fresh? then old(instance.ready) else e.copy.ready;
            ready && e.token.Ok() && !p.fromUrl ==>
              (ok <==>
               && e.list.Ok()
               && (p.key !in old(server.installed) ==> Batch.InstallSeen(e))
               && (p.key in old(server.installed) && p.version != "" && old(server.installed)[p.key] != p.version ==>
                     e.uninstall.Ok() && Batch.InstallSeen(e)))
    ensures (if e.copy.Fresh? then !old(instance.ready) else !e.copy.ready) || !e.token.Ok() || p.fromUrl ==> ok
  {
    var ready := if e.copy.Fresh? then instance.ready else e.copy.ready;
    if !ready || !e.token.Ok() || p.fromUrl {
      return true;
    }
    if !e.list.Ok() {
      return false;
    }
    ok := true;
    var installed := server.ListInstalledPlugins();
    var current: Option<InstalledPlugin> := None;
    for i := 0 to |installed|
      invariant current.None? && forall j :: 0 <= j < i ==> installed[j].key != p.key
    {
      if installed[i].key == p.key {
        current := Some(installed[i]);
        break;
      }
    }
    if current.None? {
      ok := InstallPlugin(server, instance, p, e);
    } else if p.version != "" && current.value.version != p.version {
      ok := server.UninstallPlugin(p.key, e.uninstall);
      if ok {
        instance.dangling := instance.dangling + {p.key};
        ok := InstallPlugin(server, instance, p, e);
      }
    }
  }

  /** ok is false when the clean-up failed, which keeps the finalizer. */
  method DeletePlugin(server: SonarServer, instance: Instance, p: Batch.Plugin, e: Batch.PluginEnv)
    returns (ok: bool)
    modifies server`installed, server`changes, instance`restartRequired
    ensures instance.Plugins(server) == Batch.DeletePlugin(old(instance.Plugins(server)), p, e)
    ensures var ready := if e.copy.Fresh? then old(instance.ready) else e.copy.ready;
            ready && e.token.Ok() ==>
              (ok <==> e.list.Ok() && (p.key in old(server.installed) ==> e.uninstall.Ok()))
    ensures (if e.copy.Fresh? then !old(instance.ready) else !e.copy.ready) || !e.token.Ok() ==> ok
  {
    var ready := if e.copy.Fresh? then instance.ready else e.copy.ready;
    if !ready || !e.token.Ok() {
      return true;
    }
    if !e.list.Ok() {
      return false;
    }
    ok := true;
    var installed := server.ListInstalledPlugins();
    var isInstalled := false;
    for i := 0 to |installed|
      invariant !isInstalled && forall j :: 0 <= j < i ==> installed[j].key != p.key
    {
      if installed[i].key == p.key {
        isInstalled := true;
        break;
      }
    }
    if isInstalled {
      ok := server.UninstallPlugin(p.key, e.uninstall);
      if ok {
        SignalInstanceRestart(instance, if e.copy.Fresh? then instance.restartRequired else e.copy.flag, e.patch);
      }
    }
  }
}
