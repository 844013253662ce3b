/** Reconcile, finalizeDeletion and handleDeletion as methods that update a stored resource and its
    object on the server step by step, proved to take exactly the steps of Finalizers. */
module FinalizerController {
  import opened Outcomes
  import F = Finalizers

  class Resource {
    const kind: F.Kind
    var exists_: bool
    var deleting: bool
    var finalizer: bool
    var gateId: Option<nat>
    var object_: Option<nat>
    var nextId: nat
    ghost var made: bool
    ghost var creates: nat
    ghost var naked: nat

    constructor (kind: F.Kind, present: bool)
      ensures this.kind == kind && Look() == F.Fresh(present)
    {
      this.kind, object_, nextId := kind, if present then Some(0) else None, 1;
      exists_, deleting, finalizer, gateId, made, creates, naked := true, false, false, None, false, 0, 0;
    }

    ghost function Look(): F.World
      reads this
    {
      F.World(exists_, deleting, finalizer, gateId, object_, nextId, made, creates, naked)
    }

    /** Update of a copy with the given finalizer list. */
    method UpdateFinalizer(present: bool, o: Outcome) returns (ok: bool)
      modifies this`finalizer, this`exists_
      ensures ok == o.Ok()
      ensures finalizer == if o.Effective() then present else old(finalizer)
      ensures exists_ == if o.Effective() && !present then !deleting else old(exists_)
    {
      if o.Effective() {
        finalizer := present;
        if !present {
          exists_ := !deleting;
        }
      }
      return o.Ok();
    }

    /** A create or install call. */
    method Create(o: Outcome) returns (ok: bool)
      modifies this`object_, this`nextId, this`made, this`creates, this`naked
      ensures ok == o.Ok() && Look() == F.Create(old(Look()), o)
    {
      creates, naked := creates + 1, if finalizer then naked else naked + 1;
      if o.Effective() {
        object_, nextId, made := Some(nextId), nextId + 1, true;
      }
      return o.Ok();
    }

    /** A delete, uninstall or deactivate call. */
    method Remove(o: Outcome) returns (ok: bool)
      modifies this`object_, this`made
      ensures ok == o.Ok()
      ensures Look() == F.Remove(old(Look()), o)
    {
      if o.Effective() {
        object_, made := None, false;
      }
      return o.Ok();
    }

    /** Deletion by id; an id that is no longer in use deletes nothing. */
    method DeleteQualityGate(id: nat, o: Outcome)
      modifies this`object_, this`made
      ensures Look() == if old(object_) == Some(id) then F.Remove(old(Look()), o) else old(Look())
    {
      if object_ == Some(id) {
        var _ := Remove(o);
      }
    }

    method Reconcile(e: F.Env)
      modifies this
      ensures Look() == F.Reconcile(kind, old(Look()), e)
    {
      if !exists_ || e.instance.Unreadable? {
        return;
      }
      if e.instance.Missing? {
        if finalizer {
          var _ := UpdateFinalizer(false, e.update);
        }
        return;
      }
      if deleting {
        FinalizeDeletion(e);
        return;
      }
      if !e.instance.ready || !e.instance.token.Ok() {
        return;
      }
      if !finalizer {
        var added := UpdateFinalizer(true, e.update);
        if !added {
          return;
        }
      }
      ReconcileObject(e);
    }

    method ReconcileObject(e: F.Env)
      modifies this
      ensures Look() == F.ReconcileObject(kind, old(Look()), e)
    {
      if kind.PluginKind? && e.blocked {
        return;
      }
      if !e.lookup.Ok() {
        return;
      }
      if kind.PluginKind? && object_.Some? && e.mismatch {
        var uninstalled := Remove(e.uninstall);
        if uninstalled {
          var _ := Create(e.create);
        }
        return;
      }
      if object_.None? {
        if e.blocked {
          return;
        }
        var created := Create(e.create);
        if !created {
          return;
        }
      }
      if e.rest && kind.GateKind? && e.status.Effective() {
        gateId := object_;
      }
    }

    method FinalizeDeletion(e: F.Env)
      modifies this
      ensures Look() == F.FinalizeDeletion(kind, old(Look()), e)
    {
      if !finalizer {
        return;
      }
      if e.instance.Present? && e.instance.ready && e.instance.token.Ok() {
        HandleDeletion(e);
        return;
      }
      var _ := UpdateFinalizer(false, e.update);
    }

    method HandleDeletion(e: F.Env)
      modifies this
      ensures Look() == F.HandleDeletion(kind, old(Look()), e)
    {
      match kind {
        case ProjectKind =>
          var found := object_.Some?;
          var deleted := Remove(e.cleanup);
          if !deleted || !found {
            return;
          }
        case PluginKind =>
          if !e.lookup.Ok() {
            return;
          }
          if object_.Some? {
            var uninstalled := Remove(e.cleanup);
            if !uninstalled {
              return;
            }
          }
        case UserKind =>
          var _ := Remove(e.cleanup);
        case GateKind =>
          if gateId.Some? {
            DeleteQualityGate(gateId.value, e.cleanup);
          }
      }
      var _ := UpdateFinalizer(false, e.update);
    }
  }
}
