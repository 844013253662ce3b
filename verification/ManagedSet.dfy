/** Reconciling a set of remote items against a spec with only a persisted "managed" list to remember
    what the operator owns. Project permissions, links and settings and user groups, tokens and global
    permissions are all instances: they differ in whether they read the live set and in whether they
    add or remove first, but their passes all satisfy the predicates below. */
module ManagedSet {

  /** The calls of one pass that took effect: items an add call put in place (whether or not they were
      there) and items a remove call took away. */
  datatype Effects<T> = Effects(added: set<T>, removed: set<T>)

  /** The live set after the calls. */
  function After<T>(live: set<T>, fx: Effects<T>): set<T> {
    (live + fx.added) - fx.removed
  }

  /** The pass, complete or not, added only wanted items and removed only managed ones no longer wanted. */
  predicate Owns<T>(managed: set<T>, wanted: set<T>, fx: Effects<T>) {
    fx.added <= wanted && fx.removed <= managed - wanted
  }

  /** Every dropped item that was live has been removed. */
  predicate Drops<T>(live: set<T>, managed: set<T>, wanted: set<T>, fx: Effects<T>) {
    (managed - wanted) * live <= fx.removed
  }

  /** Every wanted item is in place. */
  predicate Fills<T>(live: set<T>, wanted: set<T>, fx: Effects<T>) {
    wanted <= live + fx.added
  }

  /** What every pass of every reconciler is, as seen from outside: it may stop anywhere, it owns what
      it does, and when it reports success it has dropped everything it had to drop. */
  predicate IsPass<T>(live: set<T>, managed: set<T>, wanted: set<T>, fx: Effects<T>, ok: bool) {
    Owns(managed, wanted, fx) && (ok ==> Drops(live, managed, wanted, fx))
  }

  /** Where a successful pass has to end. */
  function Target<T>(live: set<T>, managed: set<T>, wanted: set<T>): set<T> {
    (live - (managed - wanted)) + wanted
  }

  /** One final state for all orders: whatever calls an owning pass makes and in whatever order, it
      ends at the target exactly when it dropped and filled everything. */
  lemma OneFinalState<T>(live: set<T>, managed: set<T>, wanted: set<T>, fx: Effects<T>)
    requires Owns(managed, wanted, fx)
    ensures After(live, fx) == Target(live, managed, wanted) <==>
            Drops(live, managed, wanted, fx) && Fills(live, wanted, fx)
  {
    if After(live, fx) == Target(live, managed, wanted) {
      forall x | x in (managed - wanted) * live ensures x in fx.removed {
        assert x !in Target(live, managed, wanted);
      }
      forall x | x in wanted ensures x in live + fx.added {
        assert x in Target(live, managed, wanted);
      }
    }
  }

  /** Item by item, the target has what is wanted and keeps what is live and was not managed. */
  lemma TargetItem<T>(live: set<T>, managed: set<T>, wanted: set<T>, x: T)
    ensures x in Target(live, managed, wanted) <==> x in wanted || (x in live && x !in managed)
  {
  }

  // ----- whole runs with changing specs -----

  /** The remote set and the persisted status, with a history.
      - ui: what the live set would be had only people touched it.
      - ever: all items any spec so far listed.
      - touched: all items the operator's calls so far added or removed.
      - owned: items the operator added that nobody has removed since.
      - settled: the current spec has had a successful pass whose status update went through.
      - skipped: all items of specs that were replaced before they were settled. */
  datatype State<T> = State(
    live: set<T>, managed: set<T>, wanted: set<T>,
    ui: set<T>, ever: set<T>, touched: set<T>, owned: set<T>, settled: bool, skipped: set<T>)

  datatype Step<T> =
    | Edit(spec: set<T>)
    | Pass(fx: Effects<T>, ok: bool, persisted: bool)
    | UiAdd(x: T)
    | UiRemove(x: T)

  function Start<T>(live: set<T>, spec: set<T>): State<T> {
    State(live, {}, spec, live, spec, {}, {}, false, {})
  }

  /** Only a successful pass changes the managed list, and only if its status update persists. */
  predicate Possible<T>(s: State<T>, step: Step<T>) {
    step.Pass? ==>
      && IsPass(s.live, s.managed, s.wanted, step.fx, step.ok)
      && (step.persisted ==> step.ok)
  }

  function Next<T>(s: State<T>, step: Step<T>): State<T> {
    match step
    case Edit(spec) =>
      s.(wanted := spec, ever := s.ever + spec, settled := false,
         skipped := if s.settled then s.skipped else s.skipped + s.wanted)
    case Pass(fx, ok, persisted) =>
      s.(live := After(s.live, fx),
         managed := if persisted then s.wanted else s.managed,
         touched := s.touched + fx.added + fx.removed,
         owned := (s.owned + fx.added) - fx.removed,
         settled := s.settled || persisted)
    case UiAdd(x) => s.(live := s.live + {x}, ui := s.ui + {x})
    case UiRemove(x) => s.(live := s.live - {x}, ui := s.ui - {x}, owned := s.owned - {x})
  }

  /** The states of a run, one per step and the first. */
  ghost predicate IsRun<T>(states: seq<State<T>>, steps: seq<Step<T>>) {
    && |states| == |steps| + 1
    && states[0] == Start(states[0].live, states[0].wanted)
    && (forall i :: 0 <= i < |steps| ==> Possible(states[i], steps[i]) && states[i + 1] == Next(states[i], steps[i]))
  }

  /** What every reachable state keeps. */
  ghost predicate Inv<T(!new)>(s: State<T>) {
    && s.wanted <= s.ever && s.managed <= s.ever && s.touched <= s.ever
    && (forall x :: x !in s.ever ==> (x in s.live <==> x in s.ui))
    && s.owned <= s.live
    && s.owned <= s.managed + s.wanted + s.skipped
    && (s.settled ==> s.managed == s.wanted)
  }

  lemma StepKeepsInv<T(!new)>(s: State<T>, step: Step<T>)
    requires Inv(s) && Possible(s, step)
    ensures Inv(Next(s, step))
  {
    if step.Pass? && step.persisted {
      assert s.owned - step.fx.removed <= s.wanted + s.skipped;
    }
  }

  lemma {:induction false} RunKeepsInv<T(!new)>(states: seq<State<T>>, steps: seq<Step<T>>, i: nat)
    requires IsRun(states, steps) && i <= |steps|
    ensures Inv(states[i])
  {
    if i > 0 {
      RunKeepsInv(states, steps, i - 1);
      StepKeepsInv(states[i - 1], steps[i - 1]);
    }
  }

  /** Ownership: over every run, with changing specs, any failures and lost status updates, an item no
      spec so far has listed was never added or removed by the operator, and it is live exactly when
      people alone would have left it live. */
  lemma UnlistedItemsAreUntouched<T(!new)>(states: seq<State<T>>, steps: seq<Step<T>>, i: nat, x: T)
    requires IsRun(states, steps) && i <= |steps| && x !in states[i].ever
    ensures x !in states[i].touched
    ensures x in states[i].live <==> x in states[i].ui
  {
    RunKeepsInv(states, steps, i);
  }

  /** An orphan in the making: the operator added the item and nobody removed it, but neither the
      managed list nor the spec knows it any more. */
  predicate Stranded<T>(s: State<T>, x: T) {
    x in s.owned && x !in s.managed && x !in s.wanted
  }

  /** An edit strands what the operator added and no stored pass wrote down, unless it lists it itself. */
  predicate Strands<T>(s: State<T>, step: Step<T>, x: T) {
    step.Edit? && x in s.owned && x !in s.managed && x !in step.spec
  }

  /** A stranded item is found again by a spec that lists it, and ends when a person removes it. */
  predicate Rescues<T>(step: Step<T>, x: T) {
    (step.Edit? && x in step.spec) || (step.UiRemove? && step.x == x)
  }

  /** No pass strands an item or removes a stranded one, whatever fails in it. */
  lemma StrandedStep<T(!new)>(s: State<T>, step: Step<T>, x: T)
    requires Inv(s) && Possible(s, step)
    ensures Stranded(Next(s, step), x) <==> Strands(s, step, x) || (Stranded(s, x) && !Rescues(step, x))
  {
  }

  /** Step j stranded x and no step after it, before state i, rescued it. */
  ghost predicate StrandedSince<T>(states: seq<State<T>>, steps: seq<Step<T>>, i: nat, x: T, j: nat)
    requires |states| == |steps| + 1 && i <= |steps|
  {
    j < i && Strands(states[j], steps[j], x) && forall k :: j < k < i ==> !Rescues(steps[k], x)
  }

  /** Over every run an item is stranded exactly when some edit stranded it and since then no spec
      listed it and nobody removed it. */
  lemma {:induction false} StrandedExactly<T(!new)>(states: seq<State<T>>, steps: seq<Step<T>>, i: nat, x: T)
    requires IsRun(states, steps) && i <= |steps|
    ensures Stranded(states[i], x) <==> exists j :: StrandedSince(states, steps, i, x, j)
  {
    if i > 0 {
      StrandedExactly(states, steps, i - 1, x);
      RunKeepsInv(states, steps, i - 1);
      StrandedStep(states[i - 1], steps[i - 1], x);
      assert states[i] == Next(states[i - 1], steps[i - 1]);
      if Strands(states[i - 1], steps[i - 1], x) {
        assert StrandedSince(states, steps, i, x, i - 1);
      } else if Stranded(states[i], x) {
        var j :| StrandedSince(states, steps, i - 1, x, j);
        assert StrandedSince(states, steps, i, x, j);
      } else if j :| StrandedSince(states, steps, i, x, j) {
        assert StrandedSince(states, steps, i - 1, x, j);
      }
    }
  }

  /** Orphans, exactly: in every settled state, however many passes failed before, an item the operator
      added and nobody removed is missing from the spec exactly when it is stranded. */
  lemma OrphansExactly<T(!new)>(states: seq<State<T>>, steps: seq<Step<T>>, i: nat, x: T)
    requires IsRun(states, steps) && i <= |steps| && states[i].settled
    ensures x in states[i].owned - states[i].wanted <==> exists j :: StrandedSince(states, steps, i, x, j)
  {
    RunKeepsInv(states, steps, i);
    StrandedExactly(states, steps, i, x);
  }

  /** In particular an orphan comes from a spec that was replaced before it was settled. */
  lemma OrphansComeFromSkippedSpecs<T(!new)>(states: seq<State<T>>, steps: seq<Step<T>>, i: nat)
    requires IsRun(states, steps) && i <= |steps| && states[i].settled
    ensures states[i].owned <= states[i].wanted + states[i].skipped
  {
    RunKeepsInv(states, steps, i);
  }

  /** Every spec is settled before it is replaced. */
  ghost predicate Patient<T>(states: seq<State<T>>, steps: seq<Step<T>>)
    requires |states| == |steps| + 1
  {
    forall i :: 0 <= i < |steps| && steps[i].Edit? ==> states[i].settled
  }

  /** With patient users nothing is ever stranded: a settled state has no orphan. */
  lemma {:induction false} PatientRunsStrandNothing<T(!new)>(states: seq<State<T>>, steps: seq<Step<T>>, i: nat, x: T)
    requires IsRun(states, steps) && Patient(states, steps) && i <= |steps|
    ensures !Stranded(states[i], x)
  {
    StrandedExactly(states, steps, i, x);
    if j :| StrandedSince(states, steps, i, x, j) {
      RunKeepsInv(states, steps, j);
      PatientRunsStrandNothing(states, steps, j, x);
    }
  }

  lemma {:induction false} PatientRunsSkipNothing<T(!new)>(states: seq<State<T>>, steps: seq<Step<T>>, i: nat)
    requires IsRun(states, steps) && Patient(states, steps) && i <= |steps|
    ensures states[i].skipped == {}
  {
    if i > 0 {
      PatientRunsSkipNothing(states, steps, i - 1);
      assert states[i] == Next(states[i - 1], steps[i - 1]);
    }
  }

  lemma PatientRunsLeaveNoOrphans<T(!new)>(states: seq<State<T>>, steps: seq<Step<T>>, i: nat)
    requires IsRun(states, steps) && Patient(states, steps) && i <= |steps|
    ensures states[i].skipped == {}
    ensures states[i].settled ==> states[i].owned <= states[i].wanted
  {
    RunKeepsInv(states, steps, i);
    PatientRunsSkipNothing(states, steps, i);
    forall x | x in states[i].owned && states[i].settled ensures x in states[i].wanted {
      PatientRunsStrandNothing(states, steps, i, x);
    }
  }

  /** Some patience is needed: a spec whose only pass added an item but did not persist, and that is then
      replaced, leaves the item behind, although the next spec settles. */
  lemma ImpatienceLeavesAnOrphan<T(!new)>(x: T) returns (states: seq<State<T>>, steps: seq<Step<T>>)
    ensures IsRun(states, steps) && |steps| == 3 && steps[1] == Edit({})
    ensures states[3].settled && x in states[3].live && x in states[3].owned && x !in states[3].wanted
  {
    var s0 := Start({}, {x});
    steps := [Pass(Effects({x}, {}), true, false), Edit({}), Pass(Effects({}, {}), true, true)];
    var s1 := Next(s0, steps[0]);
    var s2 := Next(s1, steps[1]);
    states := [s0, s1, s2, Next(s2, steps[2])];
  }
}
