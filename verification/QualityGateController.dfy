/** reconcileConditions in the controller's form: two sets filled by loops, a loop of removals and a
    loop of additions, each call of which may fail. */
module QualityGateController {
  import opened Outcomes
  import opened QualityGate
  import opened Remote

  class GateServer {
    const net: seq<Outcome>
    var gate: Gate
    var calls: nat
    var errors: nat

    constructor (net: seq<Outcome>, gate: Gate)
      ensures this.net == net && this.gate == gate && calls == errors == 0
    {
      this.net, this.gate, calls, errors := net, gate, 0, 0;
    }

    /** GetQualityGate: the conditions in some order, each with its id. */
    method ShowConditions() returns (current: Option<seq<Live>>)
      modifies this`calls, this`errors
      ensures errors == old(errors) + Miss(current.Some?)
      ensures current.Some? <==> Fate(net, old(calls)).Ok()
      ensures current.Some? ==> Lists(current.value, gate)
    {
      var o := Fate(net, calls);
      calls, errors := calls + 1, errors + Miss(o.Ok());
      if !o.Ok() {
        return None;
      }
      var list: seq<Live>, rest := [], gate.conds.Keys;
      while rest != {}
        invariant rest <= gate.conds.Keys
        invariant ListsSome(list, gate)
        invariant forall i :: 0 <= i < |list| ==> list[i].id !in rest
        invariant forall id :: id in gate.conds ==> id in rest || exists i :: 0 <= i < |list| && list[i].id == id
      {
        var id :| id in rest;
        var longer := list + [Live(id, gate.conds[id])];
        assert longer[|list|].id == id;
        assert forall i :: 0 <= i < |list| ==> longer[i] == list[i];
        list, rest := longer, rest - {id};
      }
      current := Some(list);
    }

    method Do(c: Call) returns (ok: bool, ghost did: nat)
      modifies this`gate, this`calls, this`errors
      ensures calls == old(calls) + 1 && errors == old(errors) + Miss(ok)
      ensures ok == Fate(net, old(calls)).Ok()
      ensures did == (if Fate(net, old(calls)).Effective() then 1 else 0)
      ensures gate == if did == 1 then Apply(old(gate), c) else old(gate)
    {
      var o := Fate(net, calls);
      did := if o.Effective() then 1 else 0;
      if o.Effective() {
        gate := Apply(gate, c);
      }
      ok := o.Ok();
      calls, errors := calls + 1, errors + Miss(ok);
    }

    method RemoveCondition(id: nat) returns (ok: bool, ghost did: nat)
      modifies this`gate, this`calls, this`errors
      ensures errors == old(errors) + Miss(ok) && did <= 1 && (ok ==> did == 1)
      ensures gate == if did == 1 then Apply(old(gate), Call.RemoveCondition(id)) else old(gate)
    {
      ok, did := Do(Call.RemoveCondition(id));
    }

    method AddCondition(cond: Cond) returns (ok: bool, ghost did: nat)
      modifies this`gate, this`calls, this`errors
      ensures errors == old(errors) + Miss(ok) && did <= 1 && (ok ==> did == 1)
      ensures gate == if did == 1 then Apply(old(gate), Call.AddCondition(cond)) else old(gate)
    {
      ok, did := Do(Call.AddCondition(cond));
    }
  }

  /** The removals of a longer list start with those of a shorter one. */
  lemma {:induction false} RemovalsGrow(current: seq<Live>, wanted: set<string>, i: nat)
    requires i <= |current|
    ensures |Removals(current[..i], wanted)| <= |Removals(current, wanted)|
    ensures Removals(current, wanted)[..|Removals(current[..i], wanted)|] == Removals(current[..i], wanted)
  {
    if i < |current| {
      var n := |current| - 1;
      RemovalsGrow(current[..n], wanted, i);
      assert current[..n][..i] == current[..i];
    } else {
      assert current[..i] == current;
    }
  }

  lemma {:induction false} AdditionsGrow(desired: seq<Cond>, present: set<string>, i: nat)
    requires i <= |desired|
    ensures |Additions(desired[..i], present)| <= |Additions(desired, present)|
    ensures Additions(desired, present)[..|Additions(desired[..i], present)|] == Additions(desired[..i], present)
  {
    if i < |desired| {
      var n := |desired| - 1;
      AdditionsGrow(desired[..n], present, i);
      assert desired[..n][..i] == desired[..i];
    } else {
      assert desired[..i] == desired;
    }
  }

  /** How many calls of the plan the first i list entries stand for. */
  function RemovalsUpTo(current: seq<Live>, desired: seq<Cond>, i: nat): nat
    requires i <= |current|
  {
    |Removals(current[..i], Keys(desired))|
  }

  /** The same for the first i spec entries, after all removals. */
  function AdditionsUpTo(current: seq<Live>, desired: seq<Cond>, i: nat): nat
    requires i <= |desired|
  {
    |Removals(current, Keys(desired))| + |Additions(desired[..i], CurrentKeys(current))|
  }

  lemma FirstAndLastAddition(current: seq<Live>, desired: seq<Cond>)
    ensures AdditionsUpTo(current, desired, 0) == |Removals(current, Keys(desired))|
    ensures AdditionsUpTo(current, desired, |desired|) == |Plan(current, desired)|
  {
    assert desired[..0] == [] && desired[..|desired|] == desired;
  }

  /** From list entry i to the next the plan advances by that entry's removal, if it has one. */
  lemma NextRemoval(g: Gate, current: seq<Live>, desired: seq<Cond>, i: nat)
    requires i < |current|
    ensures var k, k' := RemovalsUpTo(current, desired, i), RemovalsUpTo(current, desired, i + 1);
            && k <= k' <= |Removals(current, Keys(desired))| <= |Plan(current, desired)|
            && if Key(current[i].cond) in Keys(desired) then k' == k
               else k' == k + 1 && ApplyAll(g, Plan(current, desired)[..k']) ==
                                   Apply(ApplyAll(g, Plan(current, desired)[..k]), Call.RemoveCondition(current[i].id))
  {
    var wanted, plan := Keys(desired), Plan(current, desired);
    assert current[..i + 1][..i] == current[..i];
    RemovalsGrow(current, wanted, i + 1);
    var upTo := Removals(current[..i + 1], wanted);
    if Key(current[i].cond) !in wanted {
      var k := RemovalsUpTo(current, desired, i);
      assert plan[k] == Removals(current, wanted)[..|upTo|][k] == upTo[k];
      PrefixStep(g, plan, k);
    }
  }

  lemma NextAddition(g: Gate, current: seq<Live>, desired: seq<Cond>, i: nat)
    requires i < |desired|
    ensures var k, k' := AdditionsUpTo(current, desired, i), AdditionsUpTo(current, desired, i + 1);
            && k <= k' <= |Plan(current, desired)|
            && if Key(desired[i]) in CurrentKeys(current) then k' == k
               else k' == k + 1 && ApplyAll(g, Plan(current, desired)[..k']) ==
                                   Apply(ApplyAll(g, Plan(current, desired)[..k]), Call.AddCondition(desired[i]))
  {
    var present, plan := CurrentKeys(current), Plan(current, desired);
    assert desired[..i + 1][..i] == desired[..i];
    AdditionsGrow(desired, present, i + 1);
    var upTo := Additions(desired[..i + 1], present);
    if Key(desired[i]) !in present {
      var k := AdditionsUpTo(current, desired, i);
      var base := |Removals(current, Keys(desired))|;
      assert plan[k] == Additions(desired, present)[..|upTo|][k - base] == upTo[k - base];
      PrefixStep(g, plan, k);
    }
  }

  /** The loop of removals, from the start of the plan. */
  method RemoveUnwanted(server: GateServer, current: seq<Live>, desiredSet: set<string>, ghost desired: seq<Cond>)
    returns (ok: bool, ghost applied: nat)
    requires desiredSet == Keys(desired)
    modifies server`gate, server`calls, server`errors
    ensures applied <= |Removals(current, desiredSet)|
    ensures server.gate == ApplyAll(old(server.gate), Plan(current, desired)[..applied])
    ensures old(server.errors) <= server.errors && (ok <==> server.errors == old(server.errors))
    ensures ok ==> applied == |Removals(current, desiredSet)|
  {
    ghost var plan, did := Plan(current, desired), 0;
    ok, applied := true, 0;
    assert plan[..0] == [] && current[..0] == [];
    for i := 0 to |current|
      invariant applied == RemovalsUpTo(current, desired, i) <= |Removals(current, desiredSet)|
      invariant server.gate == ApplyAll(old(server.gate), plan[..applied])
      invariant ok && server.errors == old(server.errors)
    {
      NextRemoval(old(server.gate), current, desired, i);
      if Key(current[i].cond) !in desiredSet {
        ok, did := server.RemoveCondition(current[i].id);
        applied := applied + did;
        if !ok {
          return;
        }
      }
    }
    assert current[..|current|] == current;
  }

  /** The loop of additions, from where the removals ended. gate is the gate the plan started on. */
  method AddMissing(
      server: GateServer, desired: seq<Cond>, currentSet: set<string>, ghost current: seq<Live>, ghost gate: Gate)
    returns (ok: bool, ghost applied: nat)
    requires currentSet == CurrentKeys(current)
    requires server.gate == ApplyAll(gate, Plan(current, desired)[..|Removals(current, Keys(desired))|])
    modifies server`gate, server`calls, server`errors
    ensures applied <= |Plan(current, desired)|
    ensures server.gate == ApplyAll(gate, Plan(current, desired)[..applied])
    ensures old(server.errors) <= server.errors && (ok <==> server.errors == old(server.errors))
    ensures ok ==> applied == |Plan(current, desired)|
  {
    ghost var plan, did := Plan(current, desired), 0;
    ok, applied := true, |Removals(current, Keys(desired))|;
    FirstAndLastAddition(current, desired);
    for i := 0 to |desired|
      invariant applied == AdditionsUpTo(current, desired, i) <= |plan|
      invariant server.gate == ApplyAll(gate, plan[..applied])
      invariant ok && server.errors == old(server.errors)
    {
      NextAddition(gate, current, desired, i);
      if Key(desired[i]) !in currentSet {
        ok, did := server.AddCondition(desired[i]);
        applied := applied + did;
        if !ok {
          return;
        }
      }
    }
  }

  /** Executes a prefix of the plan, the whole plan when no call fails. applied is how many calls took
      effect. */
  method ReconcileConditions(server: GateServer, current: seq<Live>, desired: seq<Cond>)
    returns (ok: bool, ghost applied: nat)
    modifies server`gate, server`calls, server`errors
    ensures applied <= |Plan(current, desired)|
    ensures server.gate == ApplyAll(old(server.gate), Plan(current, desired)[..applied])
    ensures ok <==> server.errors == old(server.errors)
    ensures ok ==> applied == |Plan(current, desired)|
  {
    var desiredSet := {};
    for i := 0 to |desired|
      invariant desiredSet == Keys(desired[..i])
      invariant server.gate == old(server.gate) && server.errors == old(server.errors)
    {
      assert desired[..i + 1] == desired[..i] + [desired[i]];
      desiredSet := desiredSet + {Key(desired[i])};
    }
    assert desired[..|desired|] == desired;

    ok, applied := RemoveUnwanted(server, current, desiredSet, desired);
    if !ok {
      return;
    }
    ghost var afterRemovals, errors := server.gate, server.errors;

    var currentSet := {};
    for i := 0 to |current|
      invariant currentSet == CurrentKeys(current[..i])
      invariant server.gate == afterRemovals && server.errors == errors
    {
      assert current[..i + 1] == current[..i] + [current[i]];
      currentSet := currentSet + {Key(current[i].cond)};
    }
    assert current[..|current|] == current;

    ok, applied := AddMissing(server, desired, currentSet, current, old(server.gate));
  }

  /** Reads the gate and syncs it. A pass without a failure ends in exact sync, for every spec. */
  method SyncGate(server: GateServer, desired: seq<Cond>) returns (ok: bool, ghost applied: nat)
    requires ValidGate(server.gate)
    modifies server`gate, server`calls, server`errors
    ensures ValidGate(server.gate)
    ensures applied + Measure(server.gate, Keys(desired)) >= Measure(old(server.gate), Keys(desired))
    ensures DistinctMissing(desired, LiveKeys(old(server.gate))) ==>
              applied + Measure(server.gate, Keys(desired)) == Measure(old(server.gate), Keys(desired))
    ensures ok ==> Measure(server.gate, Keys(desired)) == 0
    ensures ok <==> server.errors == old(server.errors)
  {
    applied := 0;
    var current := server.ShowConditions();
    if current.None? {
      return false, 0;
    }
    ghost var gate := server.gate;
    ok, applied := ReconcileConditions(server, current.value, desired);
    PassConverges(gate, current.value, desired, applied);
  }
}
