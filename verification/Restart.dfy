/** Batched restarts: the plugin controller raises instance.status.restartRequired after it changed a
    plugin, the instance controller restarts SonarQube and clears it
    (internal/controller/sonarqubeplugin_controller.go, sonarqubeinstance_controller.go).

    Each Reconcile is one step. A plugin pass may work on an old copy of the instance. */
module Restart {
  import opened Outcomes

  /** The server's installed plugins and the ones its running process has loaded, the persisted part of
      the instance status, and a history.
      - changes: plugin installs and uninstalls that took effect; restarts: restarts that took effect.
      - unclear: restarts after which the flag was not cleared in the stored status.
      - dangling: plugins a version change uninstalled and could not install again, since the last
        restart. */
  datatype System = System(
    installed: map<string, string>, loaded: map<string, string>,
    flag: bool, ready: bool, deleting: bool,
    changes: nat, restarts: nat, unclear: nat, dangling: set<string>)

  /** version "" asks for the latest; fromUrl stands for spec.source. */
  datatype Plugin = Plugin(key: string, version: string, fromUrl: bool)

  datatype InstallReply = Tried(outcome: Outcome) | ConsentRequired

  /** The copy of the instance a plugin pass works on. */
  datatype Copy = Fresh | Stale(flag: bool, ready: bool)

  datatype PluginEnv = PluginEnv(
    copy: Copy, token: Outcome, list: Outcome, uninstall: Outcome,
    install: InstallReply, acknowledge: Outcome, retry: Outcome, latest: string, patch: Outcome)

  datatype InstanceEnv = InstanceEnv(
    status: Outcome, up: bool, admin: bool, token: Outcome, restart: Outcome, update: Outcome)

  function One(b: bool): nat {
    if b then 1 else 0
  }

  // ----- the plugin controller -----

  function Uninstall(s: System, key: string, o: Outcome): System {
    if o.Effective() then s.(installed := s.installed - {key}, changes := s.changes + 1) else s
  }

  /** The outcome of the install, with the one retry after the risk consent was acknowledged. */
  function InstallOutcome(e: PluginEnv): Outcome {
    match e.install
    case Tried(o) => o
    case ConsentRequired => if e.acknowledge.Ok() then e.retry else Failed
  }

  function CopyFlag(s: System, c: Copy): bool {
    if c.Fresh? then s.flag else c.flag
  }

  function CopyReady(s: System, c: Copy): bool {
    if c.Fresh? then s.ready else c.ready
  }

  /** signalInstanceRestart: nothing to do when the copy shows the flag up or the instance is going away. */
  function Signal(s: System, c: Copy, o: Outcome): System {
    if CopyFlag(s, c) || s.deleting || !o.Effective() then s else s.(flag := true)
  }

  function InstallPlugin(s: System, p: Plugin, e: PluginEnv): System {
    var o := InstallOutcome(e);
    var version := if p.version == "" then e.latest else p.version;
    var s1 := if o.Effective() then s.(installed := s.installed[p.key := version], changes := s.changes + 1) else s;
    if o.Ok() then Signal(s1.(dangling := s1.dangling - {p.key}), e.copy, e.patch) else s1
  }

  /** Reconcile of a plugin that is not being deleted. */
  function ReconcilePlugin(s: System, p: Plugin, e: PluginEnv): System {
    if !CopyReady(s, e.copy) || !e.token.Ok() || p.fromUrl || !e.list.Ok() then s
    else if p.key !in s.installed then InstallPlugin(s, p, e)
    else if p.version != "" && s.installed[p.key] != p.version then
      var s1 := Uninstall(s, p.key, e.uninstall);
      if e.uninstall.Ok() then InstallPlugin(s1.(dangling := s1.dangling + {p.key}), p, e) else s1
    else s
  }

  /** Clean-up of a plugin that is being deleted. */
  function DeletePlugin(s: System, p: Plugin, e: PluginEnv): System {
    if !CopyReady(s, e.copy) || !e.token.Ok() || !e.list.Ok() || p.key !in s.installed then s
    else
      var s1 := Uninstall(s, p.key, e.uninstall);
      if e.uninstall.Ok() then Signal(s1, e.copy, e.patch) else s1
  }

  // ----- the instance controller -----

  /** reconcileHealth followed by the status update. admin says whether initializeAdmin succeeded. */
  function ReconcileInstance(s: System, e: InstanceEnv): System {
    if !e.status.Ok() || !e.up || !e.admin then Persist(s, s.flag, false, e.update)
    else if !s.flag then Persist(s, false, true, e.update)
    else if !e.token.Ok() then Persist(s, true, false, e.update)
    else
      var s1 := if e.restart.Effective() then RestartServer(s) else s;
      var cleared := e.restart.Ok();
      var s2 := if e.restart.Effective() && !(cleared && e.update.Effective())
                then s1.(unclear := s1.unclear + 1) else s1;
      Persist(s2, !cleared, false, e.update)
  }

  function RestartServer(s: System): System {
    s.(loaded := s.installed, restarts := s.restarts + 1, dangling := {})
  }

  function Persist(s: System, flag: bool, ready: bool, o: Outcome): System {
    if o.Effective() then s.(flag := flag, ready := ready) else s
  }

  // ----- whole runs -----

  datatype Step =
    | PluginPass(plugin: Plugin, env: PluginEnv)
    | DeletionPass(plugin: Plugin, env: PluginEnv)
    | InstancePass(instanceEnv: InstanceEnv)

  function Next(s: System, step: Step): System {
    match step
    case PluginPass(p, e) => ReconcilePlugin(s, p, e)
    case DeletionPass(p, e) => DeletePlugin(s, p, e)
    case InstancePass(e) => ReconcileInstance(s, e)
  }

  function Run(s: System, steps: seq<Step>): System {
    if steps == [] then s else Next(Run(s, steps[..|steps| - 1]), steps[|steps| - 1])
  }

  /** A server that has just started with some plugins, and an instance that is not being deleted. */
  function Start(plugins: map<string, string>): System {
    System(plugins, plugins, false, false, false, 0, 0, 0, {})
  }

  /** From s to s' by a plugin pass: no restart, and the flag is raised only with a change. */
  predicate PluginStep(s: System, s': System) {
    && s'.restarts == s.restarts && s'.unclear == s.unclear && s.changes <= s'.changes
    && (s.flag ==> s'.flag) && (s'.changes == s.changes ==> s'.flag == s.flag)
  }

  lemma InstallIsPluginStep(s: System, p: Plugin, e: PluginEnv)
    ensures PluginStep(s, InstallPlugin(s, p, e))
  {
  }

  lemma PluginPassIsPluginStep(s: System, step: Step)
    requires !step.InstancePass?
    ensures PluginStep(s, Next(s, step))
  {
    var p, e := step.plugin, step.env;
    InstallIsPluginStep(s, p, e);
    var s1 := Uninstall(s, p.key, e.uninstall);
    InstallIsPluginStep(s1.(dangling := s1.dangling + {p.key}), p, e);
  }

  lemma InstancePassPays(s: System, e: InstanceEnv)
    ensures var s' := ReconcileInstance(s, e);
            && s'.changes == s.changes
            && s'.restarts + One(s'.flag) - s'.unclear <= s.restarts + One(s.flag) - s.unclear
  {
  }

  /** Restart batching: over every run, whatever fails, restarts are paid for by plugin changes, except
      for repeats of restarts whose flag could not be cleared. */
  lemma {:induction false} RestartsAreBatched(plugins: map<string, string>, steps: seq<Step>)
    ensures var s := Run(Start(plugins), steps);
            s.restarts + One(s.flag) <= s.changes + s.unclear
  {
    if steps != [] {
      var init, step := steps[..|steps| - 1], steps[|steps| - 1];
      RestartsAreBatched(plugins, init);
      match step
      case InstancePass(e) => InstancePassPays(Run(Start(plugins), init), e);
      case _ => PluginPassIsPluginStep(Run(Start(plugins), init), step);
    }
  }

  lemma {:induction false} PluginPassesArePluginSteps(s: System, steps: seq<Step>)
    requires forall i :: 0 <= i < |steps| ==> !steps[i].InstancePass?
    ensures PluginStep(s, Run(s, steps))
  {
    if steps != [] {
      PluginPassesArePluginSteps(s, steps[..|steps| - 1]);
      PluginPassIsPluginStep(Run(s, steps[..|steps| - 1]), steps[|steps| - 1]);
    }
  }

  /** However many plugins change between two instance passes, they cost one restart, after which
      everything installed is loaded. */
  lemma ChangesBetweenPassesCostOneRestart(s: System, steps: seq<Step>, e: InstanceEnv)
    requires forall i :: 0 <= i < |steps| ==> !steps[i].InstancePass?
    requires e.status.Ok() && e.up && e.admin && e.token.Ok() && e.restart.Ok() && e.update.Ok()
    ensures var t := Run(s, steps);
            var u := ReconcileInstance(t, e);
            && (s.flag ==> t.flag) && (t.changes == s.changes ==> t.flag == s.flag)
            && u.restarts == s.restarts + One(t.flag) && !u.flag
            && (t.flag ==> u.loaded == u.installed)
  {
    PluginPassesArePluginSteps(s, steps);
  }

  // ----- no forgotten restart -----

  function VersionOf(plugins: map<string, string>, key: string): Option<string> {
    if key in plugins then Some(plugins[key]) else None
  }

  /** The running process and the installed plugins agree on a key. */
  predicate Same(s: System, key: string) {
    VersionOf(s.loaded, key) == VersionOf(s.installed, key)
  }

  /** The copy does not show a flag that has come down since. */
  predicate Current(c: Copy) {
    c.Fresh? || !c.flag
  }

  /** Plugin calls either succeed or do nothing, the flag patch succeeds and the copy is current. */
  predicate Plain(step: Step) {
    match step
    case PluginPass(_, e) => !e.uninstall.Lost? && !InstallOutcome(e).Lost? && e.patch.Ok() && Current(e.copy)
    case DeletionPass(_, e) => !e.uninstall.Lost? && e.patch.Ok() && Current(e.copy)
    case InstancePass(_) => true
  }

  /** With the flag down, exactly the dangling plugins differ. */
  ghost predicate Faithful(s: System) {
    && !s.deleting
    && (forall k :: k in s.dangling ==> k !in s.installed)
    && (!s.flag ==> forall k :: Same(s, k) <==> k !in s.dangling)
  }

  lemma InstancePassKeepsFaithful(s: System, e: InstanceEnv)
    requires Faithful(s)
    ensures Faithful(ReconcileInstance(s, e))
  {
  }

  /** A plain plugin pass that leaves the flag down has changed no plugin but, perhaps, its own, and
      that one dangles exactly when it differs. */
  lemma PluginPassKeepsFaithful(s: System, step: Step)
    requires Faithful(s) && Plain(step) && !step.InstancePass?
    ensures Faithful(Next(s, step))
  {
    var s' := Next(s, step);
    if !s'.flag {
      forall k ensures Same(s', k) <==> k !in s'.dangling {
        assert Same(s, k) <==> k !in s.dangling;
        assert Same(s, step.plugin.key) <==> step.plugin.key !in s.dangling;
      }
    }
  }

  lemma StepKeepsFaithful(s: System, step: Step)
    requires Faithful(s) && Plain(step)
    ensures Faithful(Next(s, step))
  {
    match step
    case InstancePass(e) => InstancePassKeepsFaithful(s, e);
    case _ => PluginPassKeepsFaithful(s, step);
  }

  /** No forgotten restart: in every reachable state with the flag down, the plugins whose loaded and
      installed versions differ are exactly the dangling ones: those whose last version change
      uninstalled them and failed to install them again. */
  lemma {:induction false} NoForgottenRestart(plugins: map<string, string>, steps: seq<Step>, key: string)
    requires forall i :: 0 <= i < |steps| ==> Plain(steps[i])
    ensures var s := Run(Start(plugins), steps);
            && Faithful(s)
            && (!s.flag ==> (Same(s, key) <==> key !in s.dangling))
  {
    if steps != [] {
      var init := steps[..|steps| - 1];
      NoForgottenRestart(plugins, init, key);
      StepKeepsFaithful(Run(Start(plugins), init), steps[|steps| - 1]);
    }
  }

  /** The plugin is installed as its spec asks. */
  predicate AsAsked(installed: map<string, string>, p: Plugin) {
    p.key in installed && (p.version != "" ==> installed[p.key] == p.version)
  }

  /** A plugin pass without failures installs its plugin as asked and no other, raises the flag exactly
      when there was something to do, and costs one change more when it had to uninstall first. */
  lemma CleanPassInstalls(s: System, p: Plugin, e: PluginEnv)
    requires CopyReady(s, e.copy) && Current(e.copy) && !s.deleting && e.token.Ok() && !p.fromUrl && e.list.Ok()
    requires e.uninstall.Ok() && InstallOutcome(e).Ok() && e.patch.Ok()
    ensures var s' := ReconcilePlugin(s, p, e);
            && AsAsked(s'.installed, p) && s'.installed - {p.key} == s.installed - {p.key}
            && (s'.flag <==> s.flag || !AsAsked(s.installed, p))
            && s'.changes == s.changes + (if AsAsked(s.installed, p) then 0 else 1 + One(p.key in s.installed))
            && (AsAsked(s.installed, p) ==> s' == s)
  {
    var s' := ReconcilePlugin(s, p, e);
    forall k | k != p.key
      ensures k in s'.installed <==> k in s.installed
      ensures k in s.installed ==> s'.installed[k] == s.installed[k]
    {
    }
  }

  /** The clean-up of a deleted plugin, without failures, removes it and no other. */
  lemma CleanDeletionUninstalls(s: System, p: Plugin, e: PluginEnv)
    requires CopyReady(s, e.copy) && Current(e.copy) && !s.deleting
    requires e.token.Ok() && e.list.Ok() && e.uninstall.Ok() && e.patch.Ok()
    ensures var s' := DeletePlugin(s, p, e);
            && s'.installed == s.installed - {p.key}
            && (s'.flag <==> s.flag || p.key in s.installed)
  {
  }

  /** A dangling plugin stops dangling with its next successful install, which raises the flag. */
  lemma NextInstallRaisesFlag(s: System, p: Plugin, e: PluginEnv)
    requires Faithful(s) && p.key in s.dangling && Plain(PluginPass(p, e))
    requires CopyReady(s, e.copy) && e.token.Ok() && !p.fromUrl && e.list.Ok()
    ensures var s' := ReconcilePlugin(s, p, e);
            if InstallOutcome(e).Ok() then s'.flag && p.key !in s'.dangling && p.key in s'.installed else s' == s
  {
  }

  /** The patch has to succeed: when it fails after an install, the flag stays down with the new plugin
      not loaded, and no later pass of this plugin raises it. */
  lemma FailedPatchForgetsRestart(s: System, p: Plugin, e: PluginEnv, later: PluginEnv)
    requires CopyReady(s, e.copy) && !s.flag && e.token.Ok() && !p.fromUrl && e.list.Ok()
    requires p.key !in s.installed && p.key !in s.loaded
    requires InstallOutcome(e).Ok() && !e.patch.Effective()
    ensures var s' := ReconcilePlugin(s, p, e);
            && !s'.flag && !Same(s', p.key) && p.key !in s'.dangling
            && ReconcilePlugin(s', p, later) == s'
  {
  }

  // ----- what is forgotten, exactly -----

  /** A plugin pass that changed the server and left the flag down. */
  predicate Silent(s: System, step: Step) {
    !step.InstancePass? && Next(s, step).changes > s.changes && !Next(s, step).flag
  }

  /** What a plugin pass does not touch. */
  ghost predicate TouchesOnly(s: System, s': System, key: string) {
    && s'.loaded == s.loaded && (s.flag ==> s'.flag) && s.changes <= s'.changes
    && (s'.changes == s.changes ==> s'.installed == s.installed)
    && (forall k :: k != key ==> VersionOf(s'.installed, k) == VersionOf(s.installed, k))
  }

  lemma InstallTouchesOnly(s: System, p: Plugin, e: PluginEnv)
    ensures TouchesOnly(s, InstallPlugin(s, p, e), p.key)
  {
  }

  lemma PluginPassTouchesOnly(s: System, step: Step)
    requires !step.InstancePass?
    ensures TouchesOnly(s, Next(s, step), step.plugin.key)
  {
    var p, e := step.plugin, step.env;
    InstallTouchesOnly(s, p, e);
    var s1 := Uninstall(s, p.key, e.uninstall);
    InstallTouchesOnly(s1.(dangling := s1.dangling + {p.key}), p, e);
  }

  /** A change is never undone within its pass: a silent pass of a plugin that was loaded as installed
      leaves it different. */
  lemma SilentPassForgets(s: System, step: Step)
    requires Silent(s, step) && Same(s, step.plugin.key)
    ensures !Same(Next(s, step), step.plugin.key)
  {
  }

  /** With the flag down before and after, a plugin pass makes a key differ exactly when it is a silent
      pass of that key. */
  lemma PluginPassForgets(s: System, step: Step, key: string)
    requires !step.InstancePass? && !Next(s, step).flag && Same(s, key)
    ensures !s.flag && (!Same(Next(s, step), key) <==> Silent(s, step) && key == step.plugin.key)
  {
    PluginPassTouchesOnly(s, step);
    if Silent(s, step) && key == step.plugin.key {
      SilentPassForgets(s, step);
    }
  }

  /** The plugin calls of an installing or version-changing pass were seen to succeed. */
  predicate SeenInstalled(s: System, p: Plugin, e: PluginEnv) {
    (p.key in s.installed ==> e.uninstall.Ok()) && InstallOutcome(e).Ok()
  }

  /** A pass that installs or changes a version forgets its restart exactly when it changed the server
      and its calls were not all seen to succeed, or the patch had no effect, or its copy of the
      instance still showed a flag that has come down since. */
  lemma PassForgetsExactly(s: System, p: Plugin, e: PluginEnv)
    requires !s.flag && !s.deleting && Same(s, p.key)
    ensures var s' := ReconcilePlugin(s, p, e);
            !s'.flag && !Same(s', p.key) <==>
            s'.changes > s.changes && !(SeenInstalled(s, p, e) && e.patch.Effective() && Current(e.copy))
  {
    var step := PluginPass(p, e);
    PluginPassTouchesOnly(s, step);
    if Silent(s, step) {
      SilentPassForgets(s, step);
    }
  }

  /** The same for the clean-up of a deleted plugin. */
  lemma DeletionForgetsExactly(s: System, p: Plugin, e: PluginEnv)
    requires !s.flag && !s.deleting && Same(s, p.key)
    ensures var s' := DeletePlugin(s, p, e);
            !s'.flag && !Same(s', p.key) <==>
            s'.changes > s.changes && !(e.uninstall.Ok() && e.patch.Effective() && Current(e.copy))
  {
    var step := DeletionPass(p, e);
    PluginPassTouchesOnly(s, step);
    if Silent(s, step) {
      SilentPassForgets(s, step);
    }
  }

  /** The version (None: not installed) in which the last silent pass since the last restart left each
      plugin that had one. */
  function LeftBehind(s: System, steps: seq<Step>): map<string, Option<string>> {
    if steps == [] then map[]
    else
      var init, last := steps[..|steps| - 1], steps[|steps| - 1];
      var before := Run(s, init);
      if last.InstancePass? then (if Next(before, last).restarts > before.restarts then map[] else LeftBehind(s, init))
      else if Silent(before, last)
      then LeftBehind(s, init)[last.plugin.key := VersionOf(Next(before, last).installed, last.plugin.key)]
      else LeftBehind(s, init)
  }

  /** With the flag down, what is installed is what silent passes left, and what is loaded otherwise. */
  predicate Accounted(s: System, left: map<string, Option<string>>, key: string) {
    !s.flag ==> VersionOf(s.installed, key) == if key in left then left[key] else VersionOf(s.loaded, key)
  }

  lemma StepKeepsAccount(s: System, left: map<string, Option<string>>, step: Step, key: string)
    requires Accounted(s, left, key)
    ensures var s' := Next(s, step);
            if step.InstancePass? then Accounted(s', if s'.restarts > s.restarts then map[] else left, key)
            else if Silent(s, step)
            then Accounted(s', left[step.plugin.key := VersionOf(s'.installed, step.plugin.key)], key)
            else Accounted(s', left, key)
  {
    if !step.InstancePass? {
      PluginPassTouchesOnly(s, step);
    }
  }

  /** Over every run whatsoever, lost replies, failed patches and old copies included: with the flag
      down a plugin's loaded and installed versions differ exactly when it had a silent pass since the
      last restart and the last such pass left it other than it is loaded. */
  lemma {:induction false} ForgottenExactly(plugins: map<string, string>, steps: seq<Step>, key: string)
    ensures var s, left := Run(Start(plugins), steps), LeftBehind(Start(plugins), steps);
            && Accounted(s, left, key)
            && (!s.flag ==> (!Same(s, key) <==> key in left && left[key] != VersionOf(s.loaded, key)))
  {
    if steps != [] {
      var init, last := steps[..|steps| - 1], steps[|steps| - 1];
      ForgottenExactly(plugins, init, key);
      StepKeepsAccount(Run(Start(plugins), init), LeftBehind(Start(plugins), init), last, key);
    }
  }

  /** For instance a first install whose reply is lost: the plugin stays unloaded whatever the patch
      would do, and the plugin's next pass changes nothing. */
  lemma LostReplyForgetsRestart(s: System, p: Plugin, e: PluginEnv, later: PluginEnv)
    requires !s.flag && !s.deleting && Same(s, p.key) && p.key !in s.installed
    requires CopyReady(s, e.copy) && e.token.Ok() && !p.fromUrl && e.list.Ok() && InstallOutcome(e).Lost?
    ensures var s' := ReconcilePlugin(s, p, e);
            && !s'.flag && !Same(s', p.key)
            && ReconcilePlugin(s', p, later) == s'
  {
    PassForgetsExactly(s, p, e);
  }

  /** An old copy is enough: plugin p is installed and the instance restarts and clears the flag; a pass
      of plugin q, whose copy was taken while the flag was up, then installs q without any failure, and
      its restart is forgotten. */
  lemma StaleCopyLosesSignal(
      plugins: map<string, string>, p: Plugin, q: Plugin, e: PluginEnv, clean: InstanceEnv)
    requires p.key != q.key && p.key !in plugins && q.key !in plugins && !p.fromUrl && !q.fromUrl
    requires e.token.Ok() && e.list.Ok() && e.install == Tried(Done) && e.patch.Ok() && e.copy.Fresh?
    requires clean.status.Ok() && clean.up && clean.admin && clean.token.Ok() && clean.restart.Ok() && clean.update.Ok()
    ensures var old_ := Run(Start(plugins), [InstancePass(clean), PluginPass(p, e)]);
            var s := Run(Start(plugins), [
              InstancePass(clean), PluginPass(p, e), InstancePass(clean),
              PluginPass(q, e.(copy := Stale(old_.flag, old_.ready)))]);
            && old_.flag && old_.ready && s.restarts == 1
            && Same(s, p.key) && !s.flag && !Same(s, q.key) && q.key !in s.dangling
  {
    var start := Start(plugins);
    var i, j := InstancePass(clean), PluginPass(p, e);
    RunFour(start, i, j, i, PluginPass(q, e.(copy := Stale(true, true))));
    var s1 := Next(start, i);
    var s2 := Next(s1, j);
    assert s2.flag && s2.ready && s2.installed == plugins[p.key := s2.installed[p.key]];
    var s3 := Next(s2, i);
    assert !s3.flag && s3.loaded == s3.installed == s2.installed;
    PassForgetsExactly(s3, q, e.(copy := Stale(true, true)));
  }

  lemma RunFour(s: System, a: Step, b: Step, c: Step, d: Step)
    ensures Run(s, [a, b]) == Next(Next(s, a), b)
    ensures Run(s, [a, b, c, d]) == Next(Next(Next(Next(s, a), b), c), d)
  {
    assert [] + [a] == [a] && [a] + [b] == [a, b] && [a, b] + [c] == [a, b, c] && [a, b, c] + [d] == [a, b, c, d];
    RunOneMore(s, [], a);
    RunOneMore(s, [a], b);
    RunOneMore(s, [a, b], c);
    RunOneMore(s, [a, b, c], d);
  }

  lemma RunOneMore(s: System, steps: seq<Step>, step: Step)
    ensures Run(s, steps + [step]) == Next(Run(s, steps), step)
  {
    assert (steps + [step])[..|steps|] == steps;
  }

  // ----- one pass, exactly -----

  /** What an instance pass stores: it is Ready exactly when the server answered, is up and initialized
      and no restart was due; a due restart is made exactly when also the token was readable; and the
      flag comes down exactly after a restart seen to succeed. Nothing is stored when the update has no
      effect. */
  lemma InstancePassExactly(s: System, e: InstanceEnv)
    ensures var s' := ReconcileInstance(s, e);
            var healthy := e.status.Ok() && e.up && e.admin;
            var restarts := healthy && s.flag && e.token.Ok();
            && s'.ready == (if e.update.Effective() then healthy && !s.flag else s.ready)
            && s'.flag == (s.flag && !(restarts && e.restart.Ok() && e.update.Effective()))
            && s'.restarts == s.restarts + One(restarts && e.restart.Effective())
            && s'.loaded == (if restarts && e.restart.Effective() then s.installed else s.loaded)
            && s'.installed == s.installed
  {
  }

  /** What the server made of the install: the attempt, or after it asked for consent and the operator
      acknowledged, the one retry. */
  predicate InstallSeen(e: PluginEnv) {
    if e.install.Tried? then e.install.outcome.Ok() else e.acknowledge.Ok() && e.retry.Ok()
  }

  predicate InstallDone(e: PluginEnv) {
    if e.install.Tried? then e.install.outcome.Effective() else e.acknowledge.Ok() && e.retry.Effective()
  }

  /** A pass that finds its copy not ready, no token, a source URL or no plugin list changes nothing. */
  lemma BlockedPassChangesNothing(s: System, p: Plugin, e: PluginEnv)
    ensures (if e.copy.Fresh? then !s.ready else !e.copy.ready) || !e.token.Ok() || p.fromUrl || !e.list.Ok() ==>
              ReconcilePlugin(s, p, e) == s
    ensures (if e.copy.Fresh? then !s.ready else !e.copy.ready) || !e.token.Ok() || !e.list.Ok() ==>
              DeletePlugin(s, p, e) == s
  {
  }

  /** On an absent plugin the pass installs the asked version, or the latest when none is asked, exactly
      when the install took effect, with the one retry after the consent; and it raises the flag exactly
      when it saw the install succeed and the patch took effect. */
  lemma AbsentPluginExactly(s: System, p: Plugin, e: PluginEnv)
    requires CopyReady(s, e.copy) && e.token.Ok() && !p.fromUrl && e.list.Ok() && p.key !in s.installed
    ensures var s' := ReconcilePlugin(s, p, e);
            && (p.key in s'.installed <==>
                if e.install.ConsentRequired? then e.acknowledge.Ok() && e.retry.Effective()
                else e.install.outcome.Effective())
            && (p.key in s'.installed ==> s'.installed[p.key] == if p.version != "" then p.version else e.latest)
            && s'.changes == s.changes + One(p.key in s'.installed)
            && (s'.flag <==>
                s.flag || (InstallSeen(e) && (e.copy.Fresh? || !e.copy.flag) && !s.deleting && e.patch.Effective()))
  {
  }

  /** On a plugin in another version the pass uninstalls, and only after that was seen to succeed it
      installs; the plugin ends absent, in the old version or in the asked one accordingly. */
  lemma OtherVersionExactly(s: System, p: Plugin, e: PluginEnv)
    requires CopyReady(s, e.copy) && e.token.Ok() && !p.fromUrl && e.list.Ok()
    requires p.key in s.installed && p.version != "" && s.installed[p.key] != p.version
    ensures var s' := ReconcilePlugin(s, p, e);
            && VersionOf(s'.installed, p.key) ==
               (if !e.uninstall.Effective() then VersionOf(s.installed, p.key)
                else if e.uninstall.Ok() && InstallDone(e) then Some(p.version) else None)
            && (s'.flag <==>
                || s.flag
                || (e.uninstall.Ok() && InstallSeen(e) && (e.copy.Fresh? || !e.copy.flag) && !s.deleting
                    && e.patch.Effective()))
  {
  }

  /** A deletion that gets to the plugin removes it exactly when the uninstall took effect, and raises the
      flag exactly when it was seen to succeed and the patch took effect. */
  lemma DeletionExactly(s: System, p: Plugin, e: PluginEnv)
    requires CopyReady(s, e.copy) && e.token.Ok() && e.list.Ok() && p.key in s.installed
    ensures var s' := DeletePlugin(s, p, e);
            && (p.key in s'.installed <==> !e.uninstall.Effective())
            && (s'.flag <==>
                s.flag || (e.uninstall.Ok() && (e.copy.Fresh? || !e.copy.flag) && !s.deleting && e.patch.Effective()))
  {
  }
}
