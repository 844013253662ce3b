/** The finalizer protocol shared by the project, plugin, user and quality gate controllers: the order
    of deletion check, readiness check, finalizer and creation in Reconcile, and the clean-up in
    finalizeDeletion and handleDeletion. */
module Finalizers {
  import opened Outcomes

  datatype Kind = ProjectKind | PluginKind | UserKind | GateKind

  /** A custom resource as Kubernetes stores it, and its counterpart on the server.
      - gateId: the id in a quality gate's status.
      - object: the project, installed plugin, active user or gate on the server, by an id the server
        never uses again; made: the operator created it.
      - creates, naked: create or install calls made so far, and how many of them while the stored
        resource had no finalizer. */
  datatype World = World(
    exists_: bool, deleting: bool, finalizer: bool, gateId: Option<nat>,
    object_: Option<nat>, nextId: nat, made: bool, creates: nat, naked: nat)

  datatype InstanceLookup = Missing | Unreadable | Present(ready: bool, token: Outcome)

  /** What one pass meets. blocked says that the spec stops the pass before it creates anything (a
      plugin with a source URL, an unreadable password Secret); mismatch says that the installed
      version of a plugin is not the one its spec names; rest says that everything between the creation
      and the status update succeeds. */
  datatype Env = Env(
    instance: InstanceLookup, update: Outcome,
    lookup: Outcome, blocked: bool, mismatch: bool, uninstall: Outcome, create: Outcome, rest: bool, status: Outcome,
    cleanup: Outcome)

  /** The instance can be asked to clean up. */
  predicate Usable(i: InstanceLookup) {
    i.Present? && i.ready && i.token.Ok()
  }

  // ----- one pass -----

  function Reconcile(k: Kind, w: World, e: Env): World {
    if !w.exists_ || e.instance.Unreadable? then w
    else if e.instance.Missing? then (if w.finalizer then DropFinalizer(w, e.update) else w)
    else if w.deleting then FinalizeDeletion(k, w, e)
    else if !Usable(e.instance) then w
    else if w.finalizer then ReconcileObject(k, w, e)
    else
      var w1 := if e.update.Effective() then w.(finalizer := true) else w;
      if e.update.Ok() then ReconcileObject(k, w1, e) else w1
  }

  /** Kubernetes removes a resource under deletion with its last finalizer. */
  function DropFinalizer(w: World, o: Outcome): World {
    if !o.Effective() then w else w.(finalizer := false, exists_ := !w.deleting)
  }

  /** Look the object up, create it when it is absent, sync the rest, store the status. A plugin in
      the wrong version is uninstalled and installed again. */
  function ReconcileObject(k: Kind, w: World, e: Env): World {
    if !e.lookup.Ok() || (e.blocked && (k.PluginKind? || w.object_.None?)) then w
    else if k.PluginKind? && w.object_.Some? && e.mismatch then
      var w1 := Remove(w, e.uninstall);
      if e.uninstall.Ok() then Create(w1, e.create) else w1
    else
      var w1 := if w.object_.Some? then w else Create(w, e.create);
      if (w.object_.None? && !e.create.Ok()) || !e.rest || !k.GateKind? || !e.status.Effective() then w1
      else w1.(gateId := w1.object_)
  }

  function Create(w: World, o: Outcome): World {
    var w1 := w.(creates := w.creates + 1, naked := if w.finalizer then w.naked else w.naked + 1);
    if o.Effective() then w1.(object_ := Some(w.nextId), nextId := w.nextId + 1, made := true) else w1
  }

  /** A delete, uninstall or deactivate call. */
  function Remove(w: World, o: Outcome): World {
    if o.Effective() then w.(object_ := None, made := false) else w
  }

  function FinalizeDeletion(k: Kind, w: World, e: Env): World {
    if !w.finalizer then w
    else if Usable(e.instance) then HandleDeletion(k, w, e)
    else DropFinalizer(w, e.update)
  }

  /** The clean-up call, where there is one: for projects and users always, for plugins that are
      installed, for gates with an id in the status. A gate is deleted by that id. */
  function Cleanup(k: Kind, w: World, o: Outcome): World {
    match k
    case ProjectKind => Remove(w, o)
    case UserKind => Remove(w, o)
    case PluginKind => if w.object_.Some? then Remove(w, o) else w
    case GateKind => if w.gateId.Some? && w.gateId == w.object_ then Remove(w, o) else w
  }

  /** What makes handleDeletion return an error before it drops the finalizer. The server answers the
      deletion of a project it does not have with an error. */
  predicate CleanupBlocks(k: Kind, w: World, e: Env) {
    match k
    case ProjectKind => !e.cleanup.Ok() || w.object_.None?
    case PluginKind => !e.lookup.Ok() || (w.object_.Some? && !e.cleanup.Ok())
    case UserKind => false
    case GateKind => false
  }

  function HandleDeletion(k: Kind, w: World, e: Env): World {
    if k.PluginKind? && !e.lookup.Ok() then w
    else
      var w1 := Cleanup(k, w, e.cleanup);
      if CleanupBlocks(k, w, e) then w1 else DropFinalizer(w1, e.update)
  }

  // ----- whole runs -----

  /** A pass, a user deleting the resource, or somebody else removing or making the object. */
  datatype Step = PassOf(env: Env) | UserDeletes | ObjectVanishes | ObjectAppears

  function Next(k: Kind, w: World, s: Step): World {
    match s
    case PassOf(e) => Reconcile(k, w, e)
    case UserDeletes => w.(deleting := true, exists_ := w.exists_ && w.finalizer)
    case ObjectVanishes => w.(object_ := None, made := false)
    case ObjectAppears =>
      if w.object_.Some? then w else w.(object_ := Some(w.nextId), nextId := w.nextId + 1)
  }

  function Run(k: Kind, w: World, steps: seq<Step>): World {
    if steps == [] then w else Next(k, Run(k, w, steps[..|steps| - 1]), steps[|steps| - 1])
  }

  /** A new resource whose object may already be on the server. */
  function Fresh(present: bool): World {
    World(true, false, false, None, if present then Some(0) else None, 1, false, 0, 0)
  }

  lemma ObjectPassCreatesUnderFinalizer(k: Kind, w: World, e: Env)
    requires w.finalizer
    ensures ReconcileObject(k, w, e).naked == w.naked
  {
  }

  lemma DeletionCreatesNothing(k: Kind, w: World, e: Env)
    ensures FinalizeDeletion(k, w, e).naked == w.naked
  {
  }

  lemma PassCreatesUnderFinalizer(k: Kind, w: World, e: Env)
    ensures Reconcile(k, w, e).naked == w.naked
  {
    DeletionCreatesNothing(k, w, e);
    ObjectPassCreatesUnderFinalizer(k, w.(finalizer := true), e);
  }

  /** Finalizer before create: over every run no create or install call is made while the stored
      resource lacks the finalizer. */
  lemma {:induction false} NoCreateWithoutFinalizer(k: Kind, present: bool, steps: seq<Step>)
    ensures Run(k, Fresh(present), steps).naked == 0
  {
    if steps != [] {
      var init := steps[..|steps| - 1];
      NoCreateWithoutFinalizer(k, present, init);
      if steps[|steps| - 1].PassOf? {
        PassCreatesUnderFinalizer(k, Run(k, Fresh(present), init), steps[|steps| - 1].env);
      }
    }
  }

  /** A deletion pass with a working Kubernetes update keeps the finalizer exactly for projects and
      plugins, when the instance is ready and its token readable and the clean-up on the server
      failed. For users and gates it always drops it. */
  lemma DeletionPassKeepsFinalizer(k: Kind, w: World, e: Env)
    requires w.exists_ && w.deleting && w.finalizer && e.update.Ok() && !e.instance.Unreadable?
    ensures var w' := Reconcile(k, w, e);
            && (w'.finalizer <==>
                && e.instance.Present? && e.instance.ready && e.instance.token.Ok()
                && (|| (k.ProjectKind? && (!e.cleanup.Ok() || w.object_.None?))
                    || (k.PluginKind? && (!e.lookup.Ok() || (w.object_.Some? && !e.cleanup.Ok())))))
            && (w'.finalizer <==> w'.exists_)
            && (w'.finalizer ==> k.ProjectKind? || k.PluginKind?)
  {
  }

  /** When a pass makes a create or install call: on a resource that is not being deleted and has its
      finalizer stored, with a ready instance, a readable token, a lookup that succeeded and a spec that
      does not block, for an object that is absent or a plugin that was uninstalled for its version. */
  lemma PassCreatesExactly(k: Kind, w: World, e: Env)
    ensures var w' := Reconcile(k, w, e);
            && w.creates <= w'.creates <= w.creates + 1
            && (w'.creates > w.creates <==>
                && w.exists_ && !w.deleting && e.instance.Present? && e.instance.ready && e.instance.token.Ok()
                && (w.finalizer || e.update.Ok()) && e.lookup.Ok() && !e.blocked
                && (w.object_.None? || (k.PluginKind? && e.mismatch && e.uninstall.Ok())))
  {
  }

  /** What a pass does to the stored finalizer. */
  lemma PassKeepsFinalizerExactly(k: Kind, w: World, e: Env)
    requires w.exists_
    ensures var w' := Reconcile(k, w, e);
            var usable := e.instance.Present? && e.instance.ready && e.instance.token.Ok();
            && (e.instance.Missing? ==> (w'.finalizer <==> w.finalizer && !e.update.Effective()))
            && (e.instance.Unreadable? ==> w' == w)
            && (e.instance.Present? && !w.deleting ==>
                  (w'.finalizer <==> w.finalizer || (usable && e.update.Effective())))
            && (e.instance.Present? && w.deleting && !usable ==>
                  (w'.finalizer <==> w.finalizer && !e.update.Effective()) && w'.object_ == w.object_)
            && (e.instance.Present? && !w.deleting && !usable ==> w' == w)
            && (w'.exists_ <==> !(w.deleting && w.finalizer && !w'.finalizer))
  {
  }

  /** What a deletion pass on a usable instance does to the object: it goes exactly when its clean-up
      call takes effect, which for a plugin needs the list and for a gate the right id. */
  lemma DeletionRemovesExactly(k: Kind, w: World, e: Env)
    requires w.exists_ && w.deleting && w.finalizer
    requires e.instance.Present? && e.instance.ready && e.instance.token.Ok() && w.object_.Some?
    ensures Reconcile(k, w, e).object_.None? <==>
              e.cleanup.Effective() && (k.PluginKind? ==> e.lookup.Ok()) && (k.GateKind? ==> w.gateId == w.object_)
  {
  }

  /** A pass stores the id of a gate exactly when everything up to the status update succeeds and that
      takes effect; other kinds never have one. */
  lemma PassStoresGateIdExactly(k: Kind, w: World, e: Env)
    requires w.exists_ && !w.deleting
    ensures var w' := Reconcile(k, w, e);
            w'.gateId ==
              if && k.GateKind? && e.instance.Present? && e.instance.ready && e.instance.token.Ok()
                 && (w.finalizer || e.update.Ok()) && e.lookup.Ok()
                 && (w.object_.None? ==> !e.blocked && e.create.Ok()) && e.rest && e.status.Effective()
              then w'.object_ else w.gateId
  {
  }

  /** A project CR whose project is already gone is never released while its instance stays usable:
      every deletion pass fails on the delete call. */
  lemma {:induction false} AbsentProjectBlocksDeletion(w: World, steps: seq<Step>)
    requires w.exists_ && w.deleting && w.finalizer && w.object_.None?
    requires forall i :: 0 <= i < |steps| ==> steps[i].PassOf? && Usable(steps[i].env.instance)
    ensures var w' := Run(ProjectKind, w, steps); w'.exists_ && w'.deleting && w'.finalizer && w'.object_.None?
  {
    if steps != [] {
      AbsentProjectBlocksDeletion(w, steps[..|steps| - 1]);
    }
  }

  /** Every call of the pass succeeds on a usable instance. */
  predicate AllDone(e: Env) {
    && Usable(e.instance) && e.update.Ok() && e.lookup.Ok() && !e.blocked && e.uninstall.Ok() && e.create.Ok()
    && e.rest && e.status.Ok() && e.cleanup.Ok()
  }

  /** A pass without failures provides the object under a stored finalizer. It makes a create call
      exactly when the object was absent or is a plugin in the wrong version. */
  lemma CleanPassProvides(k: Kind, w: World, e: Env)
    requires w.exists_ && !w.deleting && AllDone(e)
    ensures var w' := Reconcile(k, w, e);
            && w'.exists_ && w'.finalizer && w'.object_.Some? && (k.GateKind? ==> w'.gateId == w'.object_)
            && w'.creates == w.creates + (if w.object_.None? || (k.PluginKind? && e.mismatch) then 1 else 0)
  {
  }

  /** A deletion pass without failures releases the resource unless it is a project the server no
      longer has, and a released resource leaves an object behind only for a gate without a known id. */
  lemma CleanDeletionReleases(k: Kind, w: World, e: Env)
    requires w.exists_ && w.deleting && w.finalizer && AllDone(e)
    ensures var w' := Reconcile(k, w, e);
            && (w'.exists_ <==> k.ProjectKind? && w.object_.None?)
            && (w'.object_.Some? <==> k.GateKind? && w.object_.Some? && w.gateId != w.object_)
  {
  }

  /** The operator gets there by itself: a usable instance and a delete call whose reply is lost leave
      the project gone and the resource waiting for it. */
  lemma LostDeleteBlocksDeletion(w: World, e: Env)
    requires w.exists_ && w.deleting && w.finalizer && w.object_.Some?
    requires Usable(e.instance) && e.cleanup.Lost?
    ensures var w' := Reconcile(ProjectKind, w, e); w'.exists_ && w'.deleting && w'.finalizer && w'.object_.None?
  {
  }

  // ----- orphans on the server -----

  /** The resource is gone and left something the operator made. */
  predicate Orphaned(w: World) {
    !w.exists_ && w.made
  }

  predicate WellFormed(w: World) {
    && (w.made ==> w.object_.Some?)
    && (w.object_.Some? ==> w.object_.value < w.nextId) && (w.gateId.Some? ==> w.gateId.value < w.nextId)
  }

  /** A deletion pass cannot or does not clean up, and yet drops the finalizer: the instance is gone or
      not usable, or the call of a user or gate has no effect, or the gate's id is not the stored one. */
  predicate Abandons(k: Kind, w: World, e: Env) {
    && w.exists_ && w.deleting && w.finalizer && w.made && e.update.Effective() && !e.instance.Unreadable?
    && (|| !Usable(e.instance)
        || (k.UserKind? && !e.cleanup.Effective())
        || (k.GateKind? && !(w.gateId == w.object_ && e.cleanup.Effective())))
  }

  /** A step that orphans: such a pass, or a user deleting a resource that has no finalizer. */
  predicate Orphans(k: Kind, w: World, s: Step) {
    match s
    case PassOf(e) => Abandons(k, w, e)
    case UserDeletes => w.exists_ && !w.finalizer && w.made
    case _ => false
  }

  lemma StepKeepsWellFormed(k: Kind, w: World, s: Step)
    requires WellFormed(w)
    ensures WellFormed(Next(k, w, s))
  {
  }

  /** A pass orphans exactly by abandoning. */
  lemma PassOrphansExactly(k: Kind, w: World, e: Env)
    requires WellFormed(w) && w.exists_
    ensures Orphaned(Reconcile(k, w, e)) <==> Abandons(k, w, e)
  {
  }

  lemma OrphanStep(k: Kind, w: World, s: Step)
    requires WellFormed(w)
    ensures Orphaned(Next(k, w, s)) <==> Orphans(k, w, s) || (Orphaned(w) && !s.ObjectVanishes?)
  {
    if s.PassOf? && w.exists_ {
      PassOrphansExactly(k, w, s.env);
    }
  }

  /** Step j orphaned the object and it has not vanished since. */
  ghost predicate OrphanedSince(k: Kind, w: World, steps: seq<Step>, j: nat) {
    && j < |steps| && Orphans(k, Run(k, w, steps[..j]), steps[j])
    && forall i :: j < i < |steps| ==> !steps[i].ObjectVanishes?
  }

  /** One step more. */
  lemma OrphanedSinceInit(k: Kind, w: World, init: seq<Step>, last: Step, j: nat)
    requires j < |init|
    ensures OrphanedSince(k, w, init + [last], j) <==> OrphanedSince(k, w, init, j) && !last.ObjectVanishes?
  {
    var steps := init + [last];
    assert steps[..j] == init[..j] && steps[j] == init[j] && steps[|init|] == last;
    assert forall i :: j < i < |init| ==> steps[i] == init[i];
  }

  /** Orphans, exactly: over every run a resource that is gone has left something the operator made
      exactly when a deletion pass abandoned it, or a user deleted a resource without a finalizer, and
      the object has not vanished since. */
  lemma {:induction false} OrphanedExactly(k: Kind, present: bool, steps: seq<Step>)
    ensures WellFormed(Run(k, Fresh(present), steps))
    ensures Orphaned(Run(k, Fresh(present), steps)) <==> exists j :: OrphanedSince(k, Fresh(present), steps, j)
  {
    if steps != [] {
      var w, n := Fresh(present), |steps| - 1;
      var init, last := steps[..n], steps[n];
      assert steps == init + [last];
      OrphanedExactly(k, present, init);
      StepKeepsWellFormed(k, Run(k, w, init), last);
      OrphanStep(k, Run(k, w, init), last);
      forall j | 0 <= j < n
        ensures OrphanedSince(k, w, steps, j) <==> OrphanedSince(k, w, init, j) && !last.ObjectVanishes?
      {
        OrphanedSinceInit(k, w, init, last, j);
      }
      assert OrphanedSince(k, w, steps, n) <==> Orphans(k, Run(k, w, init), last);
    }
  }

  // ----- what keeps a resource guarded -----

  /** What the operator made is on the server and guarded by a stored finalizer, for a gate also by its
      id in the status; ids in use were given out. */
  predicate Guarded(k: Kind, w: World) {
    && (w.made ==> w.object_.Some? && w.exists_ && w.finalizer && (k.GateKind? ==> w.gateId == w.object_))
    && (w.object_.Some? ==> w.object_.value < w.nextId) && (w.gateId.Some? ==> w.gateId.value < w.nextId)
  }

  /** The finalizer goes although the object stays: the instance is gone or not usable, or the clean-up
      of a user or gate failed. */
  predicate ReleasesTooEarly(k: Kind, w: World, e: Env) {
    w.made && e.update.Effective() &&
    match e.instance
    case Missing => true
    case Unreadable => false
    case Present(_, _) =>
      w.deleting && (!Usable(e.instance) || ((k.UserKind? || k.GateKind?) && !e.cleanup.Effective()))
  }

  /** A gate is created and its id does not reach the stored status. */
  predicate LosesGateId(k: Kind, w: World, e: Env) {
    && k.GateKind? && w.object_.None? && Usable(e.instance) && !w.deleting && (w.finalizer || e.update.Ok())
    && e.lookup.Ok() && !e.blocked && e.create.Effective()
    && !(e.create.Ok() && e.rest && e.status.Effective())
  }

  /** A pass on a guarded resource leaves it unguarded in exactly these two ways. */
  lemma PassLosesGuardExactly(k: Kind, w: World, e: Env)
    requires Guarded(k, w) && w.exists_
    ensures Guarded(k, Reconcile(k, w, e)) <==> !ReleasesTooEarly(k, w, e) && !LosesGateId(k, w, e)
  {
    if w.deleting && Usable(e.instance) && w.finalizer {
      assert Reconcile(k, w, e) == HandleDeletion(k, w, e);
    } else if !w.deleting && Usable(e.instance) {
      var w1 := w.(finalizer := w.finalizer || e.update.Effective());
      assert Reconcile(k, w, e) == if w.finalizer || e.update.Ok() then ReconcileObject(k, w1, e) else w1;
    }
  }

  /** No pass of the run meets one of them. */
  ghost predicate Careful(k: Kind, w: World, steps: seq<Step>) {
    forall i :: 0 <= i < |steps| && steps[i].PassOf? ==>
      var at := Run(k, w, steps[..i]);
      !ReleasesTooEarly(k, at, steps[i].env) && !LosesGateId(k, at, steps[i].env)
  }

  lemma StepKeepsGuarded(k: Kind, w: World, step: Step)
    requires Guarded(k, w)
    requires step.PassOf? ==> !ReleasesTooEarly(k, w, step.env) && !LosesGateId(k, w, step.env)
    ensures Guarded(k, Next(k, w, step))
  {
    if step.PassOf? && w.exists_ {
      PassLosesGuardExactly(k, w, step.env);
    }
  }

  lemma CarefulPrefix(k: Kind, w: World, init: seq<Step>, last: Step)
    requires Careful(k, w, init + [last])
    ensures Careful(k, w, init)
    ensures last.PassOf? ==>
              !ReleasesTooEarly(k, Run(k, w, init), last.env) && !LosesGateId(k, Run(k, w, init), last.env)
  {
    var steps := init + [last];
    assert steps[|init|] == last && steps[..|init|] == init;
    assert forall i :: 0 <= i < |init| ==> steps[i] == init[i] && steps[..i] == init[..i];
  }

  lemma {:induction false} CarefulRunStaysGuarded(k: Kind, present: bool, steps: seq<Step>)
    requires Careful(k, Fresh(present), steps)
    ensures Guarded(k, Run(k, Fresh(present), steps))
  {
    if steps != [] {
      var init, last := steps[..|steps| - 1], steps[|steps| - 1];
      assert steps == init + [last];
      CarefulPrefix(k, Fresh(present), init, last);
      CarefulRunStaysGuarded(k, present, init);
      StepKeepsGuarded(k, Run(k, Fresh(present), init), last);
    }
  }

  lemma NoOrphanWhenCareful(k: Kind, present: bool, steps: seq<Step>)
    requires Careful(k, Fresh(present), steps)
    ensures !Orphaned(Run(k, Fresh(present), steps))
  {
    CarefulRunStaysGuarded(k, present, steps);
  }

  lemma UsableInstanceIsCareful(k: Kind, w: World, steps: seq<Step>)
    requires k.ProjectKind? || k.PluginKind?
    requires forall i :: 0 <= i < |steps| && steps[i].PassOf? ==> Usable(steps[i].env.instance)
    ensures Careful(k, w, steps)
  {
    forall i | 0 <= i < |steps| && steps[i].PassOf?
      ensures !ReleasesTooEarly(k, Run(k, w, steps[..i]), steps[i].env)
    {
      assert Usable(steps[i].env.instance);
    }
  }

  /** For projects and plugins a usable instance is all it takes: over every run on one, whatever else
      fails and whoever else acts, a resource that is gone has left nothing the operator made. */
  lemma UsableInstanceLeavesNoOrphan(k: Kind, present: bool, steps: seq<Step>)
    requires k.ProjectKind? || k.PluginKind?
    requires forall i :: 0 <= i < |steps| && steps[i].PassOf? ==> Usable(steps[i].env.instance)
    ensures !Orphaned(Run(k, Fresh(present), steps))
  {
    UsableInstanceIsCareful(k, Fresh(present), steps);
    NoOrphanWhenCareful(k, present, steps);
  }

  /** A gate whose id was not stored is left behind by its deletion although no clean-up call failed. */
  lemma UnstoredGateIdLeavesOrphan(w: World, e: Env)
    requires w.exists_ && w.deleting && w.finalizer && w.object_.Some? && w.made && w.gateId != w.object_
    requires Usable(e.instance) && e.update.Ok() && e.cleanup.Ok()
    ensures var w' := Reconcile(GateKind, w, e); !w'.exists_ && w'.object_ == w.object_ && w'.made
  {
  }
}
