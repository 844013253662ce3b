/** Condition sync of a quality gate (internal/controller/sonarqubequalitygate_controller.go,
    reconcileConditions), as a plan of calls on the server's conditions.

    A pass executes a prefix of the plan: it stops at the first call that fails. */
module QualityGate {
  import opened Outcomes
  import Text

  datatype Cond = Cond(metric: string, op: string, value: string)

  /** conditionKey. */
  function Key(c: Cond): string {
    c.metric + "|" + c.op + "|" + c.value
  }

  predicate BarFree(c: Cond) {
    '|' !in c.metric && '|' !in c.op
  }

  /** The key identifies the condition when metric and operator have no "|"; the value may have any. */
  lemma KeyInjective(c: Cond, d: Cond)
    requires BarFree(c) && BarFree(d) && Key(c) == Key(d)
    ensures c == d
  {
    CutKey(c);
    CutKey(d);
  }

  lemma CutKey(c: Cond)
    requires BarFree(c)
    ensures Text.SplitN(Key(c), '|', 3) == [c.metric, c.op, c.value]
  {
    var rest := c.op + "|" + c.value;
    assert Key(c) == c.metric + "|" + rest;
    Text.SplitNMiddle(c.op, '|', c.value, 2);
    Text.SplitNMiddle(c.metric, '|', rest, 3);
    assert Text.SplitN(c.value, '|', 1) == [c.value];
  }

  /** A bar in a metric or operator breaks this: it can move between the parts. */
  lemma BarMovesBetweenParts(a: string, b: string, c: string, d: string)
    ensures Key(Cond(a + "|" + b, c, d)) == Key(Cond(a, b, c + "|" + d))
    ensures Cond(a + "|" + b, c, d) != Cond(a, b, c + "|" + d)
  {
    assert |a + "|" + b| > |a|;
  }

  // ----- the server -----

  /** The live conditions by id; ids at or above next are unused. */
  datatype Gate = Gate(conds: map<nat, Cond>, next: nat)

  datatype Call = RemoveCondition(id: nat) | AddCondition(cond: Cond)

  function Apply(g: Gate, c: Call): Gate {
    match c
    case RemoveCondition(id) => g.(conds := g.conds - {id})
    case AddCondition(cond) => Gate(g.conds[g.next := cond], g.next + 1)
  }

  function ApplyAll(g: Gate, calls: seq<Call>): Gate {
    if calls == [] then g else Apply(ApplyAll(g, calls[..|calls| - 1]), calls[|calls| - 1])
  }

  predicate ValidGate(g: Gate) {
    forall id :: id in g.conds ==> id < g.next
  }

  function LiveKeys(g: Gate): set<string> {
    set id | id in g.conds :: Key(g.conds[id])
  }

  // ----- the plan of a pass -----

  datatype Live = Live(id: nat, cond: Cond)

  function Keys(conds: seq<Cond>): set<string> {
    set c | c in conds :: Key(c)
  }

  function CurrentKeys(current: seq<Live>): set<string> {
    set c | c in current :: Key(c.cond)
  }

  /** Remove, in list order, what is live and not wanted. */
  function Removals(current: seq<Live>, wanted: set<string>): seq<Call> {
    if current == [] then []
    else
      var init, c := Removals(current[..|current| - 1], wanted), current[|current| - 1];
      if Key(c.cond) in wanted then init else init + [RemoveCondition(c.id)]
  }

  /** Add, in spec order, what is wanted and was not live when the pass read the gate. */
  function Additions(desired: seq<Cond>, present: set<string>): seq<Call> {
    if desired == [] then []
    else
      var init, d := Additions(desired[..|desired| - 1], present), desired[|desired| - 1];
      if Key(d) in present then init else init + [AddCondition(d)]
  }

  /** All removals come before all additions. */
  function Plan(current: seq<Live>, desired: seq<Cond>): seq<Call> {
    Removals(current, Keys(desired)) + Additions(desired, CurrentKeys(current))
  }

  /** current lists the gate's conditions, each once, in any order. */
  ghost predicate Lists(current: seq<Live>, g: Gate) {
    && ListsSome(current, g)
    && (forall id :: id in g.conds ==> exists i :: 0 <= i < |current| && current[i].id == id)
  }

  ghost predicate ListsSome(current: seq<Live>, g: Gate) {
    && (forall i :: 0 <= i < |current| ==> current[i].id in g.conds && g.conds[current[i].id] == current[i].cond)
    && (forall i, j :: 0 <= i < j < |current| ==> current[i].id != current[j].id)
  }

  /** No two spec entries share a key that is not live. */
  ghost predicate DistinctMissing(desired: seq<Cond>, present: set<string>) {
    forall i, j :: 0 <= i < j < |desired| && Key(desired[i]) == Key(desired[j]) ==> Key(desired[i]) in present
  }

  // ----- the measure -----

  function Unwanted(g: Gate, wanted: set<string>): set<nat> {
    set id | id in g.conds && Key(g.conds[id]) !in wanted
  }

  function Missing(g: Gate, wanted: set<string>): set<string> {
    wanted - LiveKeys(g)
  }

  /** How far a gate is from its spec. */
  function Measure(g: Gate, wanted: set<string>): nat {
    |Unwanted(g, wanted)| + |Missing(g, wanted)|
  }

  /** A call that does something the spec asks for. */
  predicate Useful(g: Gate, c: Call, wanted: set<string>) {
    match c
    case RemoveCondition(id) => id in Unwanted(g, wanted)
    case AddCondition(cond) => Key(cond) in Missing(g, wanted)
  }

  lemma OneLess<T>(a: set<T>, b: set<T>, x: T)
    requires x in a && b == a - {x}
    ensures |b| == |a| - 1
  {
  }

  lemma UsefulRemovalLowersMeasure(g: Gate, id: nat, wanted: set<string>)
    requires id in Unwanted(g, wanted)
    ensures Measure(Apply(g, RemoveCondition(id)), wanted) == Measure(g, wanted) - 1
  {
    var g' := Apply(g, RemoveCondition(id));
    assert Unwanted(g', wanted) == Unwanted(g, wanted) - {id};
    OneLess(Unwanted(g, wanted), Unwanted(g', wanted), id);
    forall k | k in wanted && k in LiveKeys(g) ensures k in LiveKeys(g') {
      var i :| i in g.conds && Key(g.conds[i]) == k;
      assert i in g'.conds && Key(g'.conds[i]) == k;
    }
    assert Missing(g', wanted) == Missing(g, wanted);
  }

  lemma WantedAdditionIsNotUnwanted(g: Gate, cond: Cond, wanted: set<string>)
    requires ValidGate(g) && Key(cond) in wanted
    ensures Unwanted(Apply(g, AddCondition(cond)), wanted) == Unwanted(g, wanted)
  {
  }

  lemma UsefulAdditionLowersMeasure(g: Gate, cond: Cond, wanted: set<string>)
    requires ValidGate(g) && Key(cond) in Missing(g, wanted)
    ensures Measure(Apply(g, AddCondition(cond)), wanted) == Measure(g, wanted) - 1
  {
    var g' := Apply(g, AddCondition(cond));
    WantedAdditionIsNotUnwanted(g, cond, wanted);
    assert Missing(g', wanted) == Missing(g, wanted) - {Key(cond)} by {
      AddedKey(g, cond);
    }
    OneLess(Missing(g, wanted), Missing(g', wanted), Key(cond));
  }

  /** Each useful call brings the gate exactly one step closer to its spec. */
  lemma UsefulCallLowersMeasure(g: Gate, c: Call, wanted: set<string>)
    requires ValidGate(g) && Useful(g, c, wanted)
    ensures Measure(Apply(g, c), wanted) == Measure(g, wanted) - 1
    ensures ValidGate(Apply(g, c))
  {
    match c
    case RemoveCondition(id) => UsefulRemovalLowersMeasure(g, id, wanted);
    case AddCondition(cond) => UsefulAdditionLowersMeasure(g, cond, wanted);
  }

  lemma {:induction false} Subset<T>(a: set<T>, b: set<T>)
    requires a <= b
    ensures |a| <= |b|
    ensures |a| == |b| ==> a == b
  {
    if x :| x in a {
      Subset(a - {x}, b - {x});
    } else if b != {} {
      assert |b| > 0;
    }
  }

  /** Removing a condition takes at most that one out of the unwanted, and no key out of the missing. */
  lemma RemovalBound(g: Gate, id: nat, wanted: set<string>)
    ensures var g' := Apply(g, RemoveCondition(id));
            && Unwanted(g', wanted) == Unwanted(g, wanted) - {id} && Missing(g, wanted) <= Missing(g', wanted)
  {
  }

  /** Adding a condition takes at most its key out of the missing, and nothing out of the unwanted. */
  lemma AdditionBound(g: Gate, cond: Cond, wanted: set<string>)
    requires ValidGate(g)
    ensures var g' := Apply(g, AddCondition(cond));
            && Missing(g', wanted) == Missing(g, wanted) - {Key(cond)} && Unwanted(g, wanted) <= Unwanted(g', wanted)
  {
    AddedKey(g, cond);
  }

  lemma UselessCallLowersNothing(g: Gate, c: Call, wanted: set<string>)
    requires ValidGate(g) && !Useful(g, c, wanted)
    ensures Measure(Apply(g, c), wanted) >= Measure(g, wanted)
  {
    var g' := Apply(g, c);
    if c.RemoveCondition? {
      RemovalBound(g, c.id, wanted);
      assert Unwanted(g', wanted) == Unwanted(g, wanted);
      Subset(Missing(g, wanted), Missing(g', wanted));
    } else {
      AdditionBound(g, c.cond, wanted);
      assert Missing(g', wanted) == Missing(g, wanted);
      Subset(Unwanted(g, wanted), Unwanted(g', wanted));
    }
  }

  lemma ApplyKeepsValid(g: Gate, c: Call)
    requires ValidGate(g)
    ensures ValidGate(Apply(g, c))
  {
  }

  /** No call whatever brings the gate more than one step closer, and only a useful one does that. */
  lemma CallLowersByAtMostOne(g: Gate, c: Call, wanted: set<string>)
    requires ValidGate(g)
    ensures Measure(Apply(g, c), wanted) + 1 >= Measure(g, wanted)
    ensures Measure(Apply(g, c), wanted) + 1 == Measure(g, wanted) <==> Useful(g, c, wanted)
    ensures ValidGate(Apply(g, c))
  {
    ApplyKeepsValid(g, c);
    if Useful(g, c, wanted) {
      UsefulCallLowersMeasure(g, c, wanted);
    } else {
      UselessCallLowersNothing(g, c, wanted);
    }
  }

  lemma AddedKey(g: Gate, cond: Cond)
    requires ValidGate(g)
    ensures LiveKeys(Apply(g, AddCondition(cond))) == LiveKeys(g) + {Key(cond)}
  {
    var g' := Apply(g, AddCondition(cond));
    assert g'.conds[g.next] == cond;
    forall k | k in LiveKeys(g) ensures k in LiveKeys(g') {
      var i :| i in g.conds && Key(g.conds[i]) == k;
      assert g'.conds[i] == g.conds[i];
    }
  }

  // ----- every call of the plan is useful -----

  ghost predicate AllUseful(g: Gate, calls: seq<Call>, wanted: set<string>) {
    calls == [] ||
    (AllUseful(g, calls[..|calls| - 1], wanted)
     && Useful(ApplyAll(g, calls[..|calls| - 1]), calls[|calls| - 1], wanted))
  }

  lemma PrefixStep(g: Gate, calls: seq<Call>, k: nat)
    requires k < |calls|
    ensures ApplyAll(g, calls[..k + 1]) == Apply(ApplyAll(g, calls[..k]), calls[k])
  {
    assert calls[..k + 1][..k] == calls[..k];
  }

  lemma AllUsefulExtends(g: Gate, calls: seq<Call>, c: Call, wanted: set<string>)
    requires AllUseful(g, calls, wanted) && Useful(ApplyAll(g, calls), c, wanted)
    ensures AllUseful(g, calls + [c], wanted)
  {
    assert (calls + [c])[..|calls|] == calls;
  }

  /** Each call of a useful sequence is useful where it is made. */
  lemma {:induction false} UsefulAt(g: Gate, calls: seq<Call>, wanted: set<string>, k: nat)
    requires AllUseful(g, calls, wanted) && k < |calls|
    ensures Useful(ApplyAll(g, calls[..k]), calls[k], wanted)
    decreases |calls|
  {
    var init := calls[..|calls| - 1];
    if k < |init| {
      UsefulAt(g, init, wanted, k);
      assert init[..k] == calls[..k];
    }
  }

  /** Any calls bring the gate at most that many steps closer, and exactly that many when, and only
      when, each of them is useful. */
  lemma {:induction false} CallsLowerByAtMost(g: Gate, calls: seq<Call>, wanted: set<string>)
    requires ValidGate(g)
    ensures ValidGate(ApplyAll(g, calls))
    ensures Measure(ApplyAll(g, calls), wanted) + |calls| >= Measure(g, wanted)
    ensures Measure(ApplyAll(g, calls), wanted) + |calls| == Measure(g, wanted) <==> AllUseful(g, calls, wanted)
  {
    if calls != [] {
      var init, last := calls[..|calls| - 1], calls[|calls| - 1];
      CallsLowerByAtMost(g, init, wanted);
      CallLowersByAtMostOne(ApplyAll(g, init), last, wanted);
    }
  }

  /** Useful calls take no wanted key away. */
  lemma {:induction false} UsefulCallsKeepWanted(g: Gate, calls: seq<Call>, wanted: set<string>)
    requires ValidGate(g) && AllUseful(g, calls, wanted)
    ensures Missing(ApplyAll(g, calls), wanted) <= Missing(g, wanted)
  {
    if calls != [] {
      var init, last := calls[..|calls| - 1], calls[|calls| - 1];
      UsefulCallsKeepWanted(g, init, wanted);
      CallsLowerByAtMost(g, init, wanted);
      UsefulCallKeepsWanted(ApplyAll(g, init), last, wanted);
    }
  }

  lemma UsefulCallKeepsWanted(g: Gate, c: Call, wanted: set<string>)
    requires ValidGate(g) && Useful(g, c, wanted)
    ensures Missing(Apply(g, c), wanted) <= Missing(g, wanted)
  {
    if c.RemoveCondition? {
      forall k | k in wanted && k in LiveKeys(g) ensures k in LiveKeys(Apply(g, c)) {
        var i :| i in g.conds && Key(g.conds[i]) == k;
        assert i in Apply(g, c).conds;
      }
    } else {
      AddedKey(g, c.cond);
    }
  }

  lemma {:induction false} PrefixUseful(g: Gate, calls: seq<Call>, wanted: set<string>, k: nat)
    requires AllUseful(g, calls, wanted) && k <= |calls|
    ensures AllUseful(g, calls[..k], wanted)
    decreases |calls|
  {
    if k == |calls| {
      assert calls[..k] == calls;
    } else {
      var init := calls[..|calls| - 1];
      PrefixUseful(g, init, wanted, k);
      assert init[..k] == calls[..k];
    }
  }

  lemma {:induction false} MeasureAfter(g: Gate, calls: seq<Call>, wanted: set<string>, k: nat)
    requires ValidGate(g) && AllUseful(g, calls, wanted) && k <= |calls|
    ensures ValidGate(ApplyAll(g, calls[..k]))
    ensures Measure(ApplyAll(g, calls[..k]), wanted) == Measure(g, wanted) - k
  {
    if k > 0 {
      MeasureAfter(g, calls, wanted, k - 1);
      UsefulAt(g, calls, wanted, k - 1);
      PrefixStep(g, calls, k - 1);
      UsefulCallLowersMeasure(ApplyAll(g, calls[..k - 1]), calls[k - 1], wanted);
    }
  }

  function UnwantedIds(current: seq<Live>, wanted: set<string>): set<nat> {
    set c | c in current && Key(c.cond) !in wanted :: c.id
  }

  lemma ApplyOneMore(g: Gate, calls: seq<Call>, c: Call)
    ensures ApplyAll(g, calls + [c]) == Apply(ApplyAll(g, calls), c)
  {
    assert (calls + [c])[..|calls|] == calls;
  }

  lemma OneMoreUnwantedId(init: seq<Live>, c: Live, wanted: set<string>)
    ensures UnwantedIds(init + [c], wanted) ==
            UnwantedIds(init, wanted) + if Key(c.cond) in wanted then {} else {c.id}
  {
    var current := init + [c];
    forall d | d in current && Key(d.cond) !in wanted
      ensures d.id in UnwantedIds(init, wanted) + if Key(c.cond) in wanted then {} else {c.id}
    {
      assert d in init || d == c;
    }
    assert c in current && forall d :: d in init ==> d in current;
  }

  /** An unwanted entry not removed yet: its removal is useful, and takes one condition more away. */
  lemma NextRemovalIsUseful(g: Gate, init: seq<Live>, c: Live, wanted: set<string>)
    requires ListsSome(init + [c], g) && Key(c.cond) !in wanted
    ensures var before := g.(conds := g.conds - UnwantedIds(init, wanted));
            && Useful(before, RemoveCondition(c.id), wanted)
            && Apply(before, RemoveCondition(c.id)) == g.(conds := g.conds - (UnwantedIds(init, wanted) + {c.id}))
  {
    var current := init + [c];
    assert current[|init|] == c;
    forall i | 0 <= i < |init| ensures init[i].id != c.id {
      assert current[i] == init[i];
    }
    var gone := UnwantedIds(init, wanted);
    assert g.conds - gone - {c.id} == g.conds - (gone + {c.id});
  }

  /** The removals take away the unwanted conditions of the list and nothing else. */
  lemma {:induction false} AfterRemovals(g: Gate, current: seq<Live>, wanted: set<string>)
    requires ListsSome(current, g)
    ensures ApplyAll(g, Removals(current, wanted)) == g.(conds := g.conds - UnwantedIds(current, wanted))
    ensures AllUseful(g, Removals(current, wanted), wanted)
  {
    if current == [] {
      assert g.conds - {} == g.conds;
    } else {
      var init, c := current[..|current| - 1], current[|current| - 1];
      assert current == init + [c];
      AfterRemovals(g, init, wanted);
      OneMoreUnwantedId(init, c, wanted);
      if Key(c.cond) !in wanted {
        var before := Removals(init, wanted);
        NextRemovalIsUseful(g, init, c, wanted);
        ApplyOneMore(g, before, RemoveCondition(c.id));
        AllUsefulExtends(g, before, RemoveCondition(c.id), wanted);
      }
    }
  }

  lemma ListedKeysAreLive(g: Gate, current: seq<Live>)
    requires Lists(current, g)
    ensures LiveKeys(g) == CurrentKeys(current)
  {
    forall id | id in g.conds ensures Key(g.conds[id]) in CurrentKeys(current) {
      var i :| 0 <= i < |current| && current[i].id == id;
      assert current[i] in current;
    }
    forall c | c in current ensures Key(c.cond) in LiveKeys(g) {
      assert c.id in g.conds;
    }
  }

  lemma ListedUnwantedIds(g: Gate, current: seq<Live>, wanted: set<string>)
    requires Lists(current, g)
    ensures UnwantedIds(current, wanted) == Unwanted(g, wanted)
  {
    forall id | id in Unwanted(g, wanted) ensures id in UnwantedIds(current, wanted) {
      var i :| 0 <= i < |current| && current[i].id == id;
      assert current[i] in current;
    }
  }

  lemma WithoutUnwanted(g: Gate, wanted: set<string>)
    ensures var g' := g.(conds := g.conds - Unwanted(g, wanted));
            Unwanted(g', wanted) == {} && LiveKeys(g') == LiveKeys(g) * wanted
  {
    var g' := g.(conds := g.conds - Unwanted(g, wanted));
    forall k | k in LiveKeys(g) * wanted ensures k in LiveKeys(g') {
      var id :| id in g.conds && Key(g.conds[id]) == k;
      assert id in g'.conds && Key(g'.conds[id]) == k;
    }
  }

  /** After all removals of a full list nothing unwanted is live, and nothing else is gone. */
  lemma RemovalsClean(g: Gate, current: seq<Live>, wanted: set<string>)
    requires Lists(current, g)
    ensures var g' := ApplyAll(g, Removals(current, wanted));
            && Unwanted(g', wanted) == {} && LiveKeys(g') == LiveKeys(g) * wanted
            && g'.next == g.next && g'.conds.Keys <= g.conds.Keys
  {
    AfterRemovals(g, current, wanted);
    ListedUnwantedIds(g, current, wanted);
    WithoutUnwanted(g, wanted);
  }

  /** One more useful addition at the end of useful calls. */
  lemma AdditionExtends(g: Gate, calls: seq<Call>, d: Cond, wanted: set<string>)
    requires AllUseful(g, calls, wanted) && ValidGate(ApplyAll(g, calls))
    requires Key(d) in wanted && Key(d) !in LiveKeys(ApplyAll(g, calls))
    ensures var all := calls + [AddCondition(d)];
            && AllUseful(g, all, wanted) && ValidGate(ApplyAll(g, all))
            && LiveKeys(ApplyAll(g, all)) == LiveKeys(ApplyAll(g, calls)) + {Key(d)}
  {
    var all := calls + [AddCondition(d)];
    assert all[..|calls|] == calls;
    AllUsefulExtends(g, calls, AddCondition(d), wanted);
    AddedKey(ApplyAll(g, calls), d);
    UsefulCallLowersMeasure(ApplyAll(g, calls), AddCondition(d), wanted);
  }

  lemma OneMoreKey(init: seq<Cond>, d: Cond)
    ensures Keys(init + [d]) == Keys(init) + {Key(d)}
  {
    forall c | c in init + [d] ensures Key(c) in Keys(init) + {Key(d)} {
      assert c in init || c == d;
    }
    assert d in init + [d] && forall c :: c in init ==> c in init + [d];
  }

  lemma LastMissingKeyIsNew(init: seq<Cond>, d: Cond, present: set<string>)
    ensures DistinctMissing(init + [d], present) <==>
            DistinctMissing(init, present) && (Key(d) !in present ==> Key(d) !in Keys(init))
  {
    var all := init + [d];
    assert all[|init|] == d && forall i :: 0 <= i < |init| ==> all[i] == init[i];
    forall i | 0 <= i < |init| && Key(init[i]) == Key(d) ensures Key(d) in Keys(init) {
      assert init[i] in init;
    }
  }

  lemma OneMoreAddition(calls: seq<Call>, init: seq<Cond>, d: Cond, present: set<string>)
    ensures var before := calls + Additions(init, present);
            calls + Additions(init + [d], present) == if Key(d) in present then before else before + [AddCondition(d)]
  {
    assert (init + [d])[..|init|] == init;
    assert calls + (Additions(init, present) + [AddCondition(d)]) ==
           calls + Additions(init, present) + [AddCondition(d)];
  }

  /** Useful calls so far, after which the wanted keys live are those of start and those added. */
  ghost predicate AddedSoFar(g: Gate, calls: seq<Call>, wanted: set<string>, start: set<string>, added: seq<Cond>) {
    AllUseful(g, calls, wanted) && ValidGate(ApplyAll(g, calls)) && LiveKeys(ApplyAll(g, calls)) == start + Keys(added)
  }

  /** One spec entry more: its key is live already, or its addition is useful. */
  lemma NextAdditionIsUseful(g: Gate, calls: seq<Call>, start: set<string>, init: seq<Cond>, d: Cond,
                             present: set<string>, wanted: set<string>)
    requires AddedSoFar(g, calls + Additions(init, present), wanted, start, init)
    requires start * wanted == present * wanted
    requires DistinctMissing(init + [d], present) && Key(d) in wanted
    ensures AddedSoFar(g, calls + Additions(init + [d], present), wanted, start, init + [d])
  {
    OneMoreKey(init, d);
    LastMissingKeyIsNew(init, d, present);
    OneMoreAddition(calls, init, d, present);
    assert Key(d) in start * wanted <==> Key(d) in present * wanted;
    if Key(d) !in present {
      AdditionExtends(g, calls + Additions(init, present), d, wanted);
    }
  }

  /** The additions, made on a clean gate, are all useful and complete it. */
  lemma {:induction false} AfterAdditions(
      g: Gate, calls: seq<Call>, start: set<string>, desired: seq<Cond>, present: set<string>, wanted: set<string>)
    requires AddedSoFar(g, calls, wanted, start, [])
    requires DistinctMissing(desired, present) && Keys(desired) <= wanted
    requires start * wanted == present * wanted
    ensures AddedSoFar(g, calls + Additions(desired, present), wanted, start, desired)
  {
    if desired == [] {
      assert calls + Additions(desired, present) == calls;
    } else {
      var init, d := desired[..|desired| - 1], desired[|desired| - 1];
      assert desired == init + [d];
      OneMoreKey(init, d);
      LastMissingKeyIsNew(init, d, present);
      AfterAdditions(g, calls, start, init, present, wanted);
      NextAdditionIsUseful(g, calls, start, init, d, present, wanted);
    }
  }

  /** The other way round: when the additions are all useful, no missing key is added twice. */
  lemma {:induction false} UsefulAdditionsAreDistinct(
      g: Gate, calls: seq<Call>, desired: seq<Cond>, present: set<string>, wanted: set<string>)
    requires ValidGate(g) && AllUseful(g, calls + Additions(desired, present), wanted)
    ensures DistinctMissing(desired, present)
    ensures Keys(desired) - present <= LiveKeys(ApplyAll(g, calls + Additions(desired, present)))
  {
    if desired != [] {
      var init, d := desired[..|desired| - 1], desired[|desired| - 1];
      assert desired == init + [d];
      OneMoreKey(init, d);
      OneMoreAddition(calls, init, d, present);
      LastMissingKeyIsNew(init, d, present);
      var before := calls + Additions(init, present);
      if Key(d) in present {
        UsefulAdditionsAreDistinct(g, calls, init, present, wanted);
      } else {
        LastCallIsUseful(g, before, AddCondition(d), wanted);
        UsefulAdditionsAreDistinct(g, calls, init, present, wanted);
        AddedKey(ApplyAll(g, before), d);
      }
    }
  }

  lemma LastCallIsUseful(g: Gate, calls: seq<Call>, c: Call, wanted: set<string>)
    requires ValidGate(g) && AllUseful(g, calls + [c], wanted)
    ensures AllUseful(g, calls, wanted) && Useful(ApplyAll(g, calls), c, wanted) && ValidGate(ApplyAll(g, calls))
    ensures ApplyAll(g, calls + [c]) == Apply(ApplyAll(g, calls), c)
  {
    assert (calls + [c])[..|calls|] == calls;
    MeasureAfter(g, calls, wanted, |calls|);
    assert calls[..|calls|] == calls;
  }

  /** Every call of the plan is useful exactly when no two spec entries share a key that is not live,
      and then exactly the wanted keys are live after the whole plan. */
  lemma PlanIsUsefulExactly(g: Gate, current: seq<Live>, desired: seq<Cond>)
    requires ValidGate(g) && Lists(current, g)
    ensures AllUseful(g, Plan(current, desired), Keys(desired)) <==> DistinctMissing(desired, CurrentKeys(current))
    ensures DistinctMissing(desired, CurrentKeys(current)) ==>
              LiveKeys(ApplyAll(g, Plan(current, desired))) == Keys(desired)
  {
    var wanted, present := Keys(desired), CurrentKeys(current);
    var removals := Removals(current, wanted);
    if DistinctMissing(desired, present) {
      AfterRemovals(g, current, wanted);
      RemovalsClean(g, current, wanted);
      ListedKeysAreLive(g, current);
      AfterAdditions(g, removals, LiveKeys(ApplyAll(g, removals)), desired, present, wanted);
    } else if AllUseful(g, Plan(current, desired), wanted) {
      UsefulAdditionsAreDistinct(g, removals, desired, present, wanted);
    }
  }

  lemma ExactKeysMeanZero(g: Gate, wanted: set<string>)
    ensures LiveKeys(g) == wanted <==> Measure(g, wanted) == 0
  {
    forall id | id in g.conds ensures Key(g.conds[id]) in LiveKeys(g) {
    }
    if LiveKeys(g) == wanted {
      assert Unwanted(g, wanted) == {} && Missing(g, wanted) == {};
    }
    if Measure(g, wanted) == 0 {
      assert Unwanted(g, wanted) == {} && Missing(g, wanted) == {};
      forall k | k in LiveKeys(g) ensures k in wanted {
        var id :| id in g.conds && Key(g.conds[id]) == k;
        assert id !in Unwanted(g, wanted);
      }
    }
  }

  lemma {:induction false} AfterAnyAdditions(g: Gate, calls: seq<Call>, desired: seq<Cond>, present: set<string>)
    requires ValidGate(ApplyAll(g, calls))
    ensures var all := calls + Additions(desired, present);
            && ValidGate(ApplyAll(g, all))
            && LiveKeys(ApplyAll(g, all)) == LiveKeys(ApplyAll(g, calls)) + (Keys(desired) - present)
  {
    if desired == [] {
      assert calls + Additions(desired, present) == calls;
    } else {
      var init, d := desired[..|desired| - 1], desired[|desired| - 1];
      assert desired == init + [d];
      OneMoreKey(init, d);
      OneMoreAddition(calls, init, d, present);
      AfterAnyAdditions(g, calls, init, present);
      if Key(d) !in present {
        var before := calls + Additions(init, present);
        ApplyOneMore(g, before, AddCondition(d));
        AddedKey(ApplyAll(g, before), d);
      }
    }
  }

  /** A whole plan ends in sync, for every spec: also one that lists a missing condition twice. */
  lemma CompletePassSyncs(g: Gate, current: seq<Live>, desired: seq<Cond>)
    requires ValidGate(g) && Lists(current, g)
    ensures ValidGate(ApplyAll(g, Plan(current, desired)))
    ensures Measure(ApplyAll(g, Plan(current, desired)), Keys(desired)) == 0
  {
    CompletePlanKeys(g, current, desired);
    ExactKeysMeanZero(ApplyAll(g, Plan(current, desired)), Keys(desired));
  }

  lemma CompletePlanKeys(g: Gate, current: seq<Live>, desired: seq<Cond>)
    requires ValidGate(g) && Lists(current, g)
    ensures ValidGate(ApplyAll(g, Plan(current, desired)))
    ensures LiveKeys(ApplyAll(g, Plan(current, desired))) == Keys(desired)
  {
    var wanted, present := Keys(desired), CurrentKeys(current);
    var removals := Removals(current, wanted);
    CallsLowerByAtMost(g, removals, wanted);
    RemovalsClean(g, current, wanted);
    ListedKeysAreLive(g, current);
    AfterAnyAdditions(g, removals, desired, present);
    KeptAndAdded(present, wanted);
  }

  lemma KeptAndAdded<T>(live: set<T>, wanted: set<T>)
    ensures live * wanted + (wanted - live) == wanted
  {
  }

  /** A plan has at least as many calls as the gate is away from its spec, and exactly as many when, and
      only when, no two spec entries share a key that is not live. */
  lemma PlanHasMeasureCalls(g: Gate, current: seq<Live>, desired: seq<Cond>)
    requires ValidGate(g) && Lists(current, g)
    ensures |Plan(current, desired)| >= Measure(g, Keys(desired))
    ensures |Plan(current, desired)| == Measure(g, Keys(desired)) <==> DistinctMissing(desired, LiveKeys(g))
  {
    CompletePassSyncs(g, current, desired);
    CallsLowerByAtMost(g, Plan(current, desired), Keys(desired));
    PlanIsUsefulExactly(g, current, desired);
    ListedKeysAreLive(g, current);
  }

  lemma AnyPrefix(g: Gate, calls: seq<Call>, wanted: set<string>, k: nat)
    requires ValidGate(g) && k <= |calls|
    ensures ValidGate(ApplyAll(g, calls[..k]))
    ensures Measure(ApplyAll(g, calls[..k]), wanted) + k >= Measure(g, wanted)
  {
    CallsLowerByAtMost(g, calls[..k], wanted);
  }

  /** Convergence of one pass, complete or not: k calls bring the gate at most k steps closer, exactly k
      when no two spec entries share a key that is not live; a pass that makes all its calls ends at
      distance zero. */
  lemma PassConverges(g: Gate, current: seq<Live>, desired: seq<Cond>, k: nat)
    requires ValidGate(g) && Lists(current, g) && k <= |Plan(current, desired)|
    ensures var g' := ApplyAll(g, Plan(current, desired)[..k]);
            && ValidGate(g') && Measure(g', Keys(desired)) + k >= Measure(g, Keys(desired))
            && (k == |Plan(current, desired)| ==> Measure(g', Keys(desired)) == 0)
    ensures DistinctMissing(desired, LiveKeys(g)) ==>
              var g' := ApplyAll(g, Plan(current, desired)[..k]);
              && Measure(g', Keys(desired)) + k == Measure(g, Keys(desired))
              && (k == |Plan(current, desired)| <==> Measure(g', Keys(desired)) == 0)
              && Missing(g', Keys(desired)) <= Missing(g, Keys(desired))
  {
    var plan, wanted := Plan(current, desired), Keys(desired);
    AnyPrefix(g, plan, wanted, k);
    if k == |plan| {
      assert plan[..k] == plan;
      CompletePassSyncs(g, current, desired);
    }
    if DistinctMissing(desired, LiveKeys(g)) {
      DistinctPassConverges(g, current, desired, k);
    }
  }

  lemma DistinctPassConverges(g: Gate, current: seq<Live>, desired: seq<Cond>, k: nat)
    requires ValidGate(g) && Lists(current, g) && DistinctMissing(desired, LiveKeys(g))
    requires k <= |Plan(current, desired)|
    ensures var g' := ApplyAll(g, Plan(current, desired)[..k]);
            && Measure(g', Keys(desired)) + k == Measure(g, Keys(desired))
            && (k == |Plan(current, desired)| <==> Measure(g', Keys(desired)) == 0)
            && Missing(g', Keys(desired)) <= Missing(g, Keys(desired))
  {
    var plan, wanted := Plan(current, desired), Keys(desired);
    ListedKeysAreLive(g, current);
    PlanIsUsefulExactly(g, current, desired);
    PlanHasMeasureCalls(g, current, desired);
    PrefixUseful(g, plan, wanted, k);
    CallsLowerByAtMost(g, plan[..k], wanted);
    UsefulCallsKeepWanted(g, plan[..k], wanted);
  }

  function LiveConds(g: Gate): set<Cond> {
    set id | id in g.conds :: g.conds[id]
  }

  function SpecConds(desired: seq<Cond>): set<Cond> {
    set d | d in desired
  }

  function KeysOf(conds: set<Cond>): set<string> {
    set c | c in conds :: Key(c)
  }

  lemma KeysDetermineConds(a: set<Cond>, b: set<Cond>)
    requires forall c :: c in a + b ==> BarFree(c)
    ensures KeysOf(a) == KeysOf(b) <==> a == b
  {
    if KeysOf(a) == KeysOf(b) {
      forall c | c in a ensures c in b {
        assert Key(c) in KeysOf(b);
        var d :| d in b && Key(d) == Key(c);
        KeyInjective(c, d);
      }
      forall c | c in b ensures c in a {
        assert Key(c) in KeysOf(a);
        var d :| d in a && Key(d) == Key(c);
        KeyInjective(c, d);
      }
    }
  }

  lemma KeysOfLiveConds(g: Gate)
    ensures KeysOf(LiveConds(g)) == LiveKeys(g)
  {
    forall id | id in g.conds ensures Key(g.conds[id]) in KeysOf(LiveConds(g)) {
      assert g.conds[id] in LiveConds(g);
    }
  }

  lemma KeysOfSpecConds(desired: seq<Cond>)
    ensures KeysOf(SpecConds(desired)) == Keys(desired)
  {
  }

  /** Distance zero is what it should be: the live conditions are exactly the wanted ones. */
  lemma ZeroMeansExactSync(g: Gate, desired: seq<Cond>)
    requires forall c :: c in LiveConds(g) + SpecConds(desired) ==> BarFree(c)
    ensures Measure(g, Keys(desired)) == 0 <==> LiveConds(g) == SpecConds(desired)
  {
    ExactKeysMeanZero(g, Keys(desired));
    KeysDetermineConds(LiveConds(g), SpecConds(desired));
    KeysOfLiveConds(g);
    KeysOfSpecConds(desired);
  }

  // ----- whole runs with a fixed spec -----

  /** One pass: the order in which the server listed the conditions, and how many calls took effect. */
  datatype PassOf = PassOf(current: seq<Live>, calls: nat)

  ghost predicate IsPass(g: Gate, p: PassOf, desired: seq<Cond>, g': Gate) {
    && Lists(p.current, g) && p.calls <= |Plan(p.current, desired)|
    && g' == ApplyAll(g, Plan(p.current, desired)[..p.calls])
  }

  ghost predicate IsRun(gates: seq<Gate>, passes: seq<PassOf>, desired: seq<Cond>) {
    && |gates| == |passes| + 1 && ValidGate(gates[0])
    && forall i :: 0 <= i < |passes| ==> IsPass(gates[i], passes[i], desired, gates[i + 1])
  }

  function TotalCalls(passes: seq<PassOf>): nat {
    if passes == [] then 0 else TotalCalls(passes[..|passes| - 1]) + passes[|passes| - 1].calls
  }

  lemma DistinctMissingStays(g: Gate, g': Gate, desired: seq<Cond>)
    requires DistinctMissing(desired, LiveKeys(g)) && Missing(g', Keys(desired)) <= Missing(g, Keys(desired))
    ensures DistinctMissing(desired, LiveKeys(g'))
  {
    forall i, j | 0 <= i < j < |desired| && Key(desired[i]) == Key(desired[j]) ensures Key(desired[i]) in LiveKeys(g') {
      assert Key(desired[i]) in Keys(desired) && Key(desired[i]) !in Missing(g, Keys(desired));
    }
  }

  lemma OneMorePass(passes: seq<PassOf>, k: nat)
    requires k < |passes|
    ensures TotalCalls(passes[..k + 1]) == TotalCalls(passes[..k]) + passes[k].calls
  {
    assert passes[..k + 1][..k] == passes[..k];
  }

  lemma StepOfRun(gates: seq<Gate>, passes: seq<PassOf>, desired: seq<Cond>, k: nat)
    requires IsRun(gates, passes, desired) && k < |passes| && ValidGate(gates[k])
    ensures ValidGate(gates[k + 1])
    ensures Measure(gates[k + 1], Keys(desired)) + passes[k].calls >= Measure(gates[k], Keys(desired))
    ensures passes[k].calls == |Plan(passes[k].current, desired)| ==> Measure(gates[k + 1], Keys(desired)) == 0
    ensures DistinctMissing(desired, LiveKeys(gates[k])) ==>
              && Measure(gates[k + 1], Keys(desired)) + passes[k].calls == Measure(gates[k], Keys(desired))
              && DistinctMissing(desired, LiveKeys(gates[k + 1]))
  {
    assert IsPass(gates[k], passes[k], desired, gates[k + 1]);
    PassConverges(gates[k], passes[k].current, desired, passes[k].calls);
    if DistinctMissing(desired, LiveKeys(gates[k])) {
      DistinctMissingStays(gates[k], gates[k + 1], desired);
    }
  }

  /** Over any run of passes, however many of them failed and wherever, the calls made so far and the
      distance still to go add up to at least the distance at the start; and to exactly that, so that no
      call is ever wasted, when no two spec entries share a key that was not live then. */
  lemma {:induction false} RunConserves(gates: seq<Gate>, passes: seq<PassOf>, desired: seq<Cond>, k: nat)
    requires IsRun(gates, passes, desired) && k <= |passes|
    ensures ValidGate(gates[k])
    ensures TotalCalls(passes[..k]) + Measure(gates[k], Keys(desired)) >= Measure(gates[0], Keys(desired))
    ensures DistinctMissing(desired, LiveKeys(gates[0])) ==>
              && TotalCalls(passes[..k]) + Measure(gates[k], Keys(desired)) == Measure(gates[0], Keys(desired))
              && DistinctMissing(desired, LiveKeys(gates[k]))
  {
    if k > 0 {
      RunConserves(gates, passes, desired, k - 1);
      StepOfRun(gates, passes, desired, k - 1);
      OneMorePass(passes, k - 1);
    }
  }

  /** A gate in sync has nothing to do, for every spec. */
  lemma InSyncPlanIsEmpty(g: Gate, current: seq<Live>, desired: seq<Cond>)
    requires ValidGate(g) && Lists(current, g) && Measure(g, Keys(desired)) == 0
    ensures Plan(current, desired) == []
  {
    ExactKeysMeanZero(g, Keys(desired));
    forall i | 0 <= i < |desired| ensures Key(desired[i]) in LiveKeys(g) {
      assert desired[i] in desired;
    }
    PlanHasMeasureCalls(g, current, desired);
  }

  lemma InSyncPassDoesNothing(g: Gate, p: PassOf, desired: seq<Cond>, g': Gate)
    requires ValidGate(g) && IsPass(g, p, desired, g') && Measure(g, Keys(desired)) == 0
    ensures p.calls == 0 && g' == g
  {
    InSyncPlanIsEmpty(g, p.current, desired);
  }

  /** The distances before and after each pass of a run. */
  function Distances(gates: seq<Gate>, desired: seq<Cond>): (r: seq<nat>)
    ensures |r| == |gates|
  {
    seq(|gates|, k requires 0 <= k < |gates| => Measure(gates[k], Keys(desired)))
  }

  /** A pass that starts in sync makes no call and ends in sync. */
  ghost predicate StaysInSync(distances: seq<nat>, passes: seq<PassOf>) {
    && |distances| == |passes| + 1
    && forall k :: 0 <= k < |passes| && distances[k] == 0 ==> passes[k].calls == 0 && distances[k + 1] == 0
  }

  lemma RunStaysInSync(gates: seq<Gate>, passes: seq<PassOf>, desired: seq<Cond>)
    requires IsRun(gates, passes, desired)
    ensures StaysInSync(Distances(gates, desired), passes)
  {
    var distances := Distances(gates, desired);
    forall k | 0 <= k < |passes| && distances[k] == 0 ensures passes[k].calls == 0 && distances[k + 1] == 0 {
      RunConserves(gates, passes, desired, k);
      InSyncPassDoesNothing(gates[k], passes[k], desired, gates[k + 1]);
    }
  }

  lemma {:induction false} InSyncForGood(distances: seq<nat>, passes: seq<PassOf>, i: nat, j: nat)
    requires StaysInSync(distances, passes) && i <= j <= |passes| && distances[i] == 0
    ensures distances[j] == 0 && TotalCalls(passes[..j]) == TotalCalls(passes[..i])
    decreases j
  {
    if i < j {
      InSyncForGood(distances, passes, i, j - 1);
      OneMorePass(passes, j - 1);
    }
  }

  /** Once pass i has made all its calls the gate is in sync for good and no later pass makes any call.
      When no two spec entries share a key that was not live at the start, the run has then made exactly
      as many calls as the starting distance. */
  lemma CompletedRun(gates: seq<Gate>, passes: seq<PassOf>, desired: seq<Cond>, i: nat, j: nat)
    requires IsRun(gates, passes, desired) && i < j <= |passes|
    requires passes[i].calls == |Plan(passes[i].current, desired)|
    ensures Measure(gates[j], Keys(desired)) == 0
    ensures j < |passes| ==> passes[j].calls == 0
    ensures DistinctMissing(desired, LiveKeys(gates[0])) ==> TotalCalls(passes[..j]) == Measure(gates[0], Keys(desired))
  {
    RunConserves(gates, passes, desired, i);
    StepOfRun(gates, passes, desired, i);
    RunStaysInSync(gates, passes, desired);
    InSyncForGood(Distances(gates, desired), passes, i + 1, j);
    RunConserves(gates, passes, desired, j);
  }

  // ----- one condition per metric -----

  ghost predicate OnePerMetric(g: Gate) {
    forall id, id' :: id in g.conds && id' in g.conds && id != id' ==> g.conds[id].metric != g.conds[id'].metric
  }

  ghost predicate DistinctMetrics(desired: seq<Cond>) {
    forall i, j :: 0 <= i < j < |desired| ==> desired[i].metric != desired[j].metric
  }

  /** On a gate without unwanted conditions, a useful addition meets no condition of its metric. */
  lemma AdditionKeepsOnePerMetric(g: Gate, d: Cond, desired: seq<Cond>)
    requires ValidGate(g) && OnePerMetric(g) && d in desired && DistinctMetrics(desired)
    requires forall c :: c in desired ==> BarFree(c)
    requires forall id :: id in g.conds ==> BarFree(g.conds[id])
    requires Unwanted(g, Keys(desired)) == {} && Key(d) !in LiveKeys(g)
    ensures forall id :: id in g.conds ==> g.conds[id].metric != d.metric
    ensures OnePerMetric(Apply(g, AddCondition(d)))
  {
    forall id | id in g.conds ensures g.conds[id].metric != d.metric {
      assert id !in Unwanted(g, Keys(desired));
      var c :| c in desired && Key(c) == Key(g.conds[id]);
      KeyInjective(c, g.conds[id]);
      assert Key(c) in LiveKeys(g);
    }
  }

  lemma {:induction false} RemovalsOnly(current: seq<Live>, wanted: set<string>)
    ensures forall c :: c in Removals(current, wanted) ==> c.RemoveCondition?
  {
    if current != [] {
      RemovalsOnly(current[..|current| - 1], wanted);
    }
  }

  lemma {:induction false} AdditionsOnly(desired: seq<Cond>, present: set<string>)
    ensures forall c :: c in Additions(desired, present) ==> c.AddCondition? && c.cond in desired
  {
    if desired != [] {
      AdditionsOnly(desired[..|desired| - 1], present);
    }
  }

  /** The state a pass is in after its first k calls, when it respects metrics. */
  ghost predicate Respectful(g: Gate, wanted: set<string>, clean: bool) {
    && ValidGate(g) && OnePerMetric(g) && (forall id :: id in g.conds ==> BarFree(g.conds[id]))
    && (clean ==> Unwanted(g, wanted) == {})
  }

  lemma CallKeepsRespect(g: Gate, c: Call, desired: seq<Cond>, clean: bool)
    requires Respectful(g, Keys(desired), clean) && Useful(g, c, Keys(desired))
    requires DistinctMetrics(desired) && forall c :: c in desired ==> BarFree(c)
    requires c.AddCondition? ==> clean && c.cond in desired
    ensures Respectful(Apply(g, c), Keys(desired), clean)
  {
    if c.AddCondition? {
      AdditionKeepsOnePerMetric(g, c.cond, desired);
      assert Key(c.cond) in Keys(desired);
    }
  }

  /** The k-th call of the plan keeps the state respectful. */
  lemma PlanCallKeepsRespect(g: Gate, current: seq<Live>, desired: seq<Cond>, k: nat)
    requires ValidGate(g) && Lists(current, g) && DistinctMetrics(desired)
    requires forall c :: c in desired ==> BarFree(c)
    requires k < |Plan(current, desired)|
    requires Respectful(
               ApplyAll(g, Plan(current, desired)[..k]), Keys(desired), k >= |Removals(current, Keys(desired))|)
    ensures Respectful(
              ApplyAll(g, Plan(current, desired)[..k + 1]), Keys(desired), k >= |Removals(current, Keys(desired))|)
  {
    var plan := Plan(current, desired);
    assert Useful(ApplyAll(g, plan[..k]), plan[k], Keys(desired)) by {
      DistinctMetricsDistinctMissing(desired, CurrentKeys(current));
      PlanIsUsefulExactly(g, current, desired);
      UsefulAt(g, plan, Keys(desired), k);
    }
    PlanOrder(current, desired, k);
    PrefixStep(g, plan, k);
    CallKeepsRespect(ApplyAll(g, plan[..k]), plan[k], desired, k >= |Removals(current, Keys(desired))|);
  }

  /** Intermediate states: when the live and the wanted conditions have at most one per metric, so does
      every state between two calls of the pass, because all removals come before all additions. */
  lemma {:induction false} EveryStateHasOnePerMetric(g: Gate, current: seq<Live>, desired: seq<Cond>, k: nat)
    requires ValidGate(g) && Lists(current, g) && OnePerMetric(g) && DistinctMetrics(desired)
    requires forall c :: c in desired ==> BarFree(c)
    requires forall id :: id in g.conds ==> BarFree(g.conds[id])
    requires k <= |Plan(current, desired)|
    ensures OnePerMetric(ApplyAll(g, Plan(current, desired)[..k]))
    ensures Respectful(ApplyAll(g, Plan(current, desired)[..k]), Keys(desired), k >= |Removals(current, Keys(desired))|)
  {
    var removals := Removals(current, Keys(desired));
    if k > 0 {
      EveryStateHasOnePerMetric(g, current, desired, k - 1);
      PlanCallKeepsRespect(g, current, desired, k - 1);
    }
    if k == |removals| {
      assert Plan(current, desired)[..k] == removals;
      RemovalsClean(g, current, Keys(desired));
    }
  }

  /** The plan removes first and then adds conditions of the spec. */
  lemma PlanOrder(current: seq<Live>, desired: seq<Cond>, k: nat)
    requires k < |Plan(current, desired)|
    ensures var c := Plan(current, desired)[k];
            if k < |Removals(current, Keys(desired))| then c.RemoveCondition?
            else c.AddCondition? && c.cond in desired
  {
    RemovalsOnly(current, Keys(desired));
    AdditionsOnly(desired, CurrentKeys(current));
    var n := |Removals(current, Keys(desired))|;
    if k >= n {
      assert Plan(current, desired)[k] == Additions(desired, CurrentKeys(current))[k - n];
    }
  }

  lemma DistinctMetricsDistinctMissing(desired: seq<Cond>, present: set<string>)
    requires DistinctMetrics(desired) && forall c :: c in desired ==> BarFree(c)
    ensures DistinctMissing(desired, present)
  {
    forall i, j | 0 <= i < j < |desired| ensures Key(desired[i]) != Key(desired[j]) {
      if Key(desired[i]) == Key(desired[j]) {
        KeyInjective(desired[i], desired[j]);
      }
    }
  }

  lemma ApplyTwo(g: Gate, c: Call, d: Call)
    ensures ApplyAll(g, [c]) == Apply(g, c) && ApplyAll(g, [c, d]) == Apply(Apply(g, c), d)
  {
    assert [c][..0] == [] && [c, d][..1] == [c];
  }

  /** The order matters: replacing a threshold by adding first puts two conditions on one metric. */
  lemma AddingFirstDoublesTheMetric(metric: string, op: string, value: string, value': string)
    ensures var g := Gate(map[0 := Cond(metric, op, value)], 1);
            var calls := [AddCondition(Cond(metric, op, value')), RemoveCondition(0)];
            && OnePerMetric(g) && OnePerMetric(ApplyAll(g, calls))
            && !OnePerMetric(ApplyAll(g, calls[..1]))
  {
    var g := Gate(map[0 := Cond(metric, op, value)], 1);
    var add, remove := AddCondition(Cond(metric, op, value')), RemoveCondition(0);
    ApplyTwo(g, add, remove);
    assert [add, remove][..1] == [add];
    var g1 := Apply(g, add);
    assert 0 in g1.conds && 1 in g1.conds && g1.conds[0].metric == g1.conds[1].metric;
  }
}
