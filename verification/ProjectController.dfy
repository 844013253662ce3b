/** The managed parts of a SonarQubeProject: permissions, links and settings
    (internal/controller/sonarqubeproject_controller.go). Each reconciler is proved to be a pass in the
    sense of ManagedSet, for every order in which Go may iterate a map and every failure of a call. */
module ProjectController {
  import opened Outcomes
  import opened Text
  import opened ManagedSet
  import opened Remote
  import opened Grants

  /** The spec is fixed during a pass; the status lists are overwritten at its end. */
  class Project {
    const permissions: seq<ProjectPermission>
    const links: seq<Link>
    const settings: map<string, string>
    var managedPermissions: seq<string>
    var managedLinkNames: seq<string>
    var managedSettings: seq<string>

    constructor (permissions: seq<ProjectPermission>, links: seq<Link>, settings: map<string, string>)
      ensures this.permissions == permissions && this.links == links && this.settings == settings
      ensures managedPermissions == managedLinkNames == managedSettings == []
    {
      this.permissions, this.links, this.settings := permissions, links, settings;
      managedPermissions, managedLinkNames, managedSettings := [], [], [];
    }
  }

  // ----- permissions -----

  /** The map of desired grant keys, filled entry by entry. */
  method DesiredKeys(permissions: seq<ProjectPermission>) returns (desired: set<string>)
    ensures desired == Encoded(Listed(permissions))
  {
    desired := {};
    for i := 0 to |permissions|
      invariant desired == Encoded(Listed(permissions[..i]))
    {
      var p := permissions[i];
      assert permissions[..i + 1][..i] == permissions[..i];
      ghost var before := desired;
      ghost var listed := Listed(permissions[..i]);
      for j := 0 to |p.permissions|
        invariant desired == before + Encoded(ListedUnder(p.Kind(), p.Subject(), p.permissions[..j]))
      {
        desired := desired + {Encode(Grant(p.Kind(), p.Subject(), p.permissions[j]))};
        EncodedOneMore(p.Kind(), p.Subject(), p.permissions, j);
      }
      assert p.permissions[..|p.permissions|] == p.permissions;
      EncodedUnion(listed, ListedUnder(p.Kind(), p.Subject(), p.permissions));
    }
    assert permissions[..|permissions|] == permissions;
  }

  lemma EncodedUnion(a: set<Grant>, b: set<Grant>)
    ensures Encoded(a + b) == Encoded(a) + Encoded(b)
  {
  }

  lemma EncodedOneMore(kind: string, subject: string, permissions: seq<string>, j: nat)
    requires j < |permissions|
    ensures Encoded(ListedUnder(kind, subject, permissions[..j + 1])) ==
            Encoded(ListedUnder(kind, subject, permissions[..j])) + {Encode(Grant(kind, subject, permissions[j]))}
  {
    var a, g := ListedUnder(kind, subject, permissions[..j]), Grant(kind, subject, permissions[j]);
    assert permissions[..j + 1] == permissions[..j] + [permissions[j]];
    assert ListedUnder(kind, subject, permissions[..j + 1]) == a + {g};
    EncodedUnion(a, {g});
    assert Encoded({g}) == {Encode(g)};
  }

  /** The call for one key: none when it does not decode to a known grant. */
  method RemoveGrant(key: string, server: RemoteSet<Grant>) returns (ok: bool, ghost did: set<Grant>)
    modifies server`live, server`calls, server`errors
    ensures did <= Decoded({key}) && (ok ==> did == Decoded({key}))
    ensures server.live == old(server.live) - did
    ensures server.errors == old(server.errors) + Miss(ok)
  {
    DecodedOne(key);
    var grant := Decode(key);
    if grant.None? || !Known(grant.value) {
      return true, {};
    }
    ok, did := server.Remove(grant.value);
  }

  method AddGrant(key: string, server: RemoteSet<Grant>) returns (ok: bool, ghost did: set<Grant>)
    requires Actionable(key)
    modifies server`live, server`calls, server`errors
    ensures did <= Decoded({key}) && (ok ==> did == Decoded({key}))
    ensures server.live == old(server.live) + did
    ensures server.errors == old(server.errors) + Miss(ok)
  {
    DecodedOne(key);
    ok, did := server.Add(Decode(key).value);
  }

  lemma DecodedOne(key: string)
    ensures Decoded({key}) == if Actionable(key) then {Decode(key).value} else {}
  {
  }

  lemma DecodedUnion(a: set<string>, b: set<string>)
    ensures Decoded(a + b) == Decoded(a) + Decoded(b)
  {
  }

  /** Removes the managed grants that are no longer desired, in list order. */
  method RemoveDropped(managed: seq<string>, desired: set<string>, server: RemoteSet<Grant>)
    returns (ok: bool, ghost removed: set<Grant>)
    modifies server`live, server`calls, server`errors
    ensures removed <= Decoded(Elements(managed) - desired)
    ensures server.live == old(server.live) - removed
    ensures old(server.errors) <= server.errors
    ensures ok <==> server.errors == old(server.errors)
    ensures ok ==> removed == Decoded(Elements(managed) - desired)
  {
    removed, ok := {}, true;
    ghost var did, seen := {}, {};
    for i := 0 to |managed|
      invariant seen == Elements(managed[..i]) - desired <= Elements(managed) - desired
      invariant removed == Decoded(seen)
      invariant server.live == old(server.live) - removed
      invariant ok && server.errors == old(server.errors)
    {
      var key := managed[i];
      DroppedOneMore(managed, desired, i);
      if key in desired {
        continue;
      }
      DecodedUnion(seen, {key});
      DecodedGrows(seen + {key}, Elements(managed) - desired);
      ok, did := RemoveGrant(key, server);
      removed, seen := removed + did, seen + {key};
      if !ok {
        return;
      }
    }
    assert managed[..|managed|] == managed;
  }

  lemma DecodedGrows(a: set<string>, b: set<string>)
    requires a <= b
    ensures Decoded(a) <= Decoded(b)
  {
  }

  lemma DroppedOneMore(managed: seq<string>, desired: set<string>, i: nat)
    requires i < |managed|
    ensures Elements(managed[..i + 1]) - desired ==
            (Elements(managed[..i]) - desired) + (if managed[i] in desired then {} else {managed[i]})
    ensures Elements(managed[..i + 1]) - desired <= Elements(managed) - desired
  {
    assert Elements(managed[..i + 1]) == Elements(managed[..i]) + {managed[i]};
  }

  /** Grants everything desired, in any order. */
  method AddDesired(desired: set<string>, server: RemoteSet<Grant>) returns (ok: bool, ghost added: set<Grant>)
    requires forall key :: key in desired ==> Actionable(key)
    modifies server`live, server`calls, server`errors
    ensures added <= Decoded(desired)
    ensures server.live == old(server.live) + added
    ensures old(server.errors) <= server.errors
    ensures ok <==> server.errors == old(server.errors)
    ensures ok ==> added == Decoded(desired)
  {
    var rest := desired;
    ghost var done, did := {}, {};
    added, ok := {}, true;
    while rest != {}
      invariant rest + done == desired && added == Decoded(done)
      invariant server.live == old(server.live) + added
      invariant ok && server.errors == old(server.errors)
    {
      var key :| key in rest;
      DecodedUnion(done, {key});
      DecodedGrows(done + {key}, desired);
      ok, did := AddGrant(key, server);
      added := added + did;
      if !ok {
        return;
      }
      rest, done := rest - {key}, done + {key};
    }
    assert done == desired;
  }

  /** The keys of a map as a list, in any order. */
  method KeyList(desired: set<string>) returns (keys: seq<string>)
    ensures Distinct(keys) && Elements(keys) == desired
  {
    keys := [];
    var rest := desired;
    while rest != {}
      invariant Distinct(keys) && rest !! Elements(keys) && rest + Elements(keys) == desired
    {
      var key :| key in rest;
      assert key !in Elements(keys);
      assert Elements(keys + [key]) == Elements(keys) + {key};
      keys, rest := keys + [key], rest - {key};
    }
  }

  method ReconcileProjectPermissions(project: Project, server: RemoteSet<Grant>)
    returns (ok: bool, ghost fx: Effects<Grant>)
    modifies project`managedPermissions, server`live, server`calls, server`errors
    ensures var managed, wanted := Decoded(Elements(old(project.managedPermissions))), Wanted(project.permissions);
            && IsPass(old(server.live), managed, wanted, fx, ok)
            && server.live == After(old(server.live), fx)
            && (ok ==> server.live == Target(old(server.live), managed, wanted))
    ensures ok <==> server.errors == old(server.errors)
    ensures ok ==> StrictlySorted(project.managedPermissions)
                   && Elements(project.managedPermissions) == Encoded(Listed(project.permissions))
    ensures !ok ==> project.managedPermissions == old(project.managedPermissions)
    ensures ok ==>
              forall i, x, g ::
                0 <= i < |project.permissions| && Asks(project.permissions[i], x, g) && ':' !in g.subject ==>
                g in server.live
  {
    var desired := DesiredKeys(project.permissions);
    ghost var managed, wanted := Decoded(Elements(project.managedPermissions)), Decoded(desired);
    DecodedDifference(Elements(project.managedPermissions), desired);

    ghost var removed, added := {}, {};
    ok, removed := RemoveDropped(project.managedPermissions, desired, server);
    fx := Effects({}, removed);
    if !ok {
      return;
    }

    EncodedAreActionable(project.permissions);
    ok, added := AddDesired(desired, server);
    fx := Effects(added, removed);
    if !ok {
      return;
    }

    var keys := KeyList(desired);
    SortedSorts(keys);
    project.managedPermissions := Sorted(keys);
    OneFinalState(old(server.live), managed, wanted, fx);
    forall i, x, g |
      0 <= i < |project.permissions| && Asks(project.permissions[i], x, g) && ':' !in g.subject
      ensures g in server.live
    {
      AskedIsDecoded(project.permissions, i, x, g);
    }
  }

  lemma EncodedAreActionable(permissions: seq<ProjectPermission>)
    ensures forall key :: key in Encoded(Listed(permissions)) ==> Actionable(key)
  {
    ListedAreKnown(permissions);
    forall key | key in Encoded(Listed(permissions)) ensures Actionable(key) {
      var g :| g in Listed(permissions) && key == Encode(g);
      DecodeUndoesEncode(g);
    }
  }

  lemma DecodedDifference(keys: set<string>, wanted: set<string>)
    ensures Decoded(keys - wanted) == Decoded(keys) - Decoded(wanted)
  {
    forall g | g in Decoded(keys - wanted) ensures g in Decoded(keys) - Decoded(wanted) {
      var k :| k in keys - wanted && Actionable(k) && g == Decode(k).value;
      UnwantedKeyUnwantedGrant(k, wanted);
    }
  }

  /** The grants a pass acts on for a spec. */
  function Wanted(permissions: seq<ProjectPermission>): set<Grant> {
    Decoded(Encoded(Listed(permissions)))
  }

  /** Ownership of project grants over whole runs: when no subject in any spec so far has a ":", a
      grant listed in none of them was never added or removed by the operator. */
  lemma UnlistedGrantIsUntouched(
      states: seq<State<Grant>>, steps: seq<Step<Grant>>, i: nat, specs: set<seq<ProjectPermission>>, grant: Grant)
    requires IsRun(states, steps) && i <= |steps|
    requires forall g :: g in states[i].ever ==> exists spec :: spec in specs && g in Wanted(spec)
    requires forall spec, g :: spec in specs && g in Listed(spec) ==> ':' !in g.subject
    requires forall spec :: spec in specs ==> grant !in Listed(spec)
    ensures grant !in states[i].touched
    ensures grant in states[i].live <==> grant in states[i].ui
  {
    if grant in states[i].ever {
      var spec :| spec in specs && grant in Wanted(spec);
      CallsMatchSpec(spec);
    }
    UnlistedItemsAreUntouched(states, steps, i, grant);
  }

  // ----- links -----

  function Names(links: map<nat, Link>): set<string> {
    set id | id in links :: links[id].name
  }

  function SpecNames(links: seq<Link>): set<string> {
    set l | l in links :: l.name
  }

  /** Ids in use were given out. */
  ghost predicate GivenOut(links: map<nat, Link>, nextId: nat) {
    forall id :: id in links ==> id < nextId
  }

  /** At most one link has the name. */
  ghost predicate Single(links: map<nat, Link>, name: string) {
    forall id, id' :: id in links && id' in links && links[id].name == name && links[id'].name == name ==> id == id'
  }

  ghost predicate DistinctLive(links: map<nat, Link>) {
    forall id, id' :: id in links && id' in links && id != id' ==> links[id].name != links[id'].name
  }

  ghost predicate DistinctSpec(links: seq<Link>) {
    forall i, j :: 0 <= i < j < |links| ==> links[i].name != links[j].name
  }

  /** The links a pass keeps are as they were, and the links it makes are the spec's. */
  ghost predicate KeepsUrls(links: map<nat, Link>, nextId: nat, links': map<nat, Link>, spec: seq<Link>) {
    && (forall id :: id in links' && id < nextId ==> id in links && links'[id] == links[id])
    && (forall id :: id in links' && id >= nextId ==> links'[id] in spec)
  }

  /** currentByName: the id of the live link of each name. */
  method IdsByName(list: seq<LiveLink>, ghost links: map<nat, Link>) returns (ids: map<string, nat>)
    requires ListsLinks(list, links)
    ensures Indexes(ids, links)
  {
    ids := map[];
    for i := 0 to |list|
      invariant ids.Keys == set j | 0 <= j < i :: list[j].link.name
      invariant forall n :: n in ids ==> ids[n] in links && links[ids[n]].name == n
    {
      ids := ids[list[i].link.name := list[i].id];
    }
    forall n | n in Names(links) ensures n in ids {
      var id :| id in links && links[id].name == n;
      var j :| 0 <= j < |list| && list[j].id == id;
      assert list[j].link.name == n;
    }
    forall n | n in ids ensures n in Names(links) {
      assert links[ids[n]].name == n;
    }
  }

  /** The ids of some names. */
  function IdsOf(ids: map<string, nat>, names: set<string>): set<nat> {
    set n | n in names && n in ids :: ids[n]
  }

  /** ids has exactly the names of the links, each with the id of a link of that name. */
  ghost predicate Indexes(ids: map<string, nat>, links: map<nat, Link>) {
    ids.Keys == Names(links) && forall n :: n in ids ==> ids[n] in links && links[ids[n]].name == n
  }

  lemma IdsOneMore(ids: map<string, nat>, names: set<string>, name: string)
    requires name in ids
    ensures IdsOf(ids, names + {name}) == IdsOf(ids, names) + {ids[name]}
  {
  }

  /** Deletes, for each managed name that is no longer in the spec and still live, the link its id was
      read for. */
  method DeleteDropped(managed: seq<string>, wanted: set<string>, ids: map<string, nat>, server: LinkServer)
    returns (ok: bool, ghost removed: set<string>)
    requires Indexes(ids, server.links)
    modifies server`links, server`calls, server`errors
    ensures removed <= (Elements(managed) - wanted) * Names(old(server.links))
    ensures server.links == old(server.links) - IdsOf(ids, removed)
    ensures old(server.errors) <= server.errors && (ok <==> server.errors == old(server.errors))
    ensures ok ==> removed == (Elements(managed) - wanted) * Names(old(server.links))
  {
    ghost var links := server.links;
    removed, ok := {}, true;
    ghost var did := false;
    assert links - {} == links;
    for i := 0 to |managed|
      invariant removed == (Elements(managed[..i]) - wanted) * Names(links)
      invariant server.links == links - IdsOf(ids, removed)
      invariant ok && server.errors == old(server.errors)
    {
      var name := managed[i];
      assert Elements(managed[..i + 1]) == Elements(managed[..i]) + {name};
      if name in wanted || name !in ids {
        assert (Elements(managed[..i + 1]) - wanted) * Names(links) == removed;
        continue;
      }
      assert (Elements(managed[..i + 1]) - wanted) * Names(links) == removed + {name};
      assert name in Elements(managed);
      IdsOneMore(ids, removed, name);
      ok, did := server.DeleteProjectLink(ids[name]);
      if did {
        removed := removed + {name};
      }
      if !ok {
        return;
      }
    }
    assert managed[..|managed|] == managed;
  }

  /** links' is links with new ones of the spec, which have the added names. */
  ghost predicate Grown(
      links: map<nat, Link>, nextId: nat, links': map<nat, Link>, nextId': nat, spec: seq<Link>, added: set<string>)
  {
    && nextId <= nextId' && GivenOut(links', nextId')
    && Names(links') == Names(links) + added
    && KeepsUrls(links, nextId, links', spec) && links.Keys <= links'.Keys
  }

  lemma GrownOneMore(
      links: map<nat, Link>, nextId: nat, links': map<nat, Link>, nextId': nat, spec: seq<Link>, added: set<string>,
      l: Link)
    requires Grown(links, nextId, links', nextId', spec, added) && l in spec
    ensures Grown(links, nextId, links'[nextId' := l], nextId' + 1, spec, added + {l.name})
    ensures DistinctLive(links') && l.name !in Names(links') ==> DistinctLive(links'[nextId' := l])
  {
    CreatedName(links', nextId', l);
  }

  /** Creates, in spec order, every link of the spec whose name was not live. */
  method CreateMissing(spec: seq<Link>, ids: map<string, nat>, server: LinkServer)
    returns (ok: bool, ghost added: set<string>)
    requires GivenOut(server.links, server.nextId)
    modifies server`links, server`nextId, server`calls, server`errors
    ensures added <= SpecNames(spec) - ids.Keys
    ensures GivenOut(server.links, server.nextId)
    ensures Names(server.links) == Names(old(server.links)) + added
    ensures KeepsUrls(old(server.links), old(server.nextId), server.links, spec)
    ensures old(server.links).Keys <= server.links.Keys
    ensures DistinctSpec(spec) && DistinctLive(old(server.links)) && Names(old(server.links)) <= ids.Keys ==>
              DistinctLive(server.links)
    ensures old(server.errors) <= server.errors && (ok <==> server.errors == old(server.errors))
    ensures ok ==> added == SpecNames(spec) - ids.Keys
  {
    ghost var links := server.links;
    ghost var distinct := DistinctSpec(spec) && DistinctLive(links) && Names(links) <= ids.Keys;
    added, ok := {}, true;
    ghost var did := false;
    for i := 0 to |spec|
      invariant added == SpecNames(spec[..i]) - ids.Keys
      invariant Grown(links, old(server.nextId), server.links, server.nextId, spec, added)
      invariant distinct ==> DistinctLive(server.links)
      invariant ok && server.errors == old(server.errors)
    {
      var l := spec[i];
      MissingOneMore(spec, ids.Keys, i);
      if l.name in ids {
        continue;
      }
      GrownOneMore(links, old(server.nextId), server.links, server.nextId, spec, added, l);
      ok, did := server.CreateProjectLink(l);
      if did {
        added := added + {l.name};
      }
      if !ok {
        return;
      }
    }
    assert spec[..|spec|] == spec;
  }

  lemma SpecNamesOneMore(spec: seq<Link>, i: nat)
    requires i < |spec|
    ensures SpecNames(spec[..i + 1]) == SpecNames(spec[..i]) + {spec[i].name}
    ensures DistinctSpec(spec) ==> spec[i].name !in SpecNames(spec[..i])
  {
    assert spec[..i + 1] == spec[..i] + [spec[i]];
  }

  lemma MissingOneMore(spec: seq<Link>, live: set<string>, i: nat)
    requires i < |spec|
    ensures SpecNames(spec[..i + 1]) - live ==
            (SpecNames(spec[..i]) - live) + if spec[i].name in live then {} else {spec[i].name}
    ensures SpecNames(spec[..i + 1]) - live <= SpecNames(spec) - live
    ensures SpecNames(spec[..i]) - live <= SpecNames(spec) - live
    ensures DistinctSpec(spec) ==> spec[i].name !in SpecNames(spec[..i]) - live
  {
    SpecNamesOneMore(spec, i);
  }

  lemma CreatedName(links: map<nat, Link>, id: nat, l: Link)
    requires id !in links
    ensures Names(links[id := l]) == Names(links) + {l.name}
    ensures DistinctLive(links) && l.name !in Names(links) ==> DistinctLive(links[id := l])
  {
    var links' := links[id := l];
    assert links'[id].name in Names(links');
    forall n | n in Names(links) ensures n in Names(links') {
      var i :| i in links && links[i].name == n;
      assert links'[i].name == n;
    }
    forall i | i in links ensures links[i].name in Names(links) {
    }
  }

  /** Deleting one link of a name takes the name away exactly when it was the only one. */
  lemma RemovedNames(links: map<nat, Link>, ids: map<string, nat>, removed: set<string>, n: string)
    requires Indexes(ids, links) && removed <= Names(links)
    ensures n in Names(links - IdsOf(ids, removed)) <==> n in Names(links) && !(n in removed && Single(links, n))
  {
    var left := links - IdsOf(ids, removed);
    if n in Names(left) {
      var id :| id in left && left[id].name == n;
      assert links[id].name in Names(links);
    }
    if n in Names(links) && n !in removed {
      var id :| id in links && links[id].name == n;
      assert id in left && left[id].name == n;
    }
    if n in removed && !Single(links, n) {
      var id, id' :| id in links && id' in links && links[id].name == n && links[id'].name == n && id != id';
      var other := if ids[n] == id then id' else id;
      assert other in left && left[other].name == n;
    }
  }

  /** What a pass leaves of the names, when it removed some and then added some. */
  lemma LeftNames(
      links: map<nat, Link>, ids: map<string, nat>, removed: set<string>, added: set<string>, names: set<string>)
    requires Indexes(ids, links) && removed <= Names(links) && added !! removed
    requires names == Names(links - IdsOf(ids, removed)) + added
    ensures names == After(Names(links), Effects(added, removed)) <==> forall n :: n in removed ==> Single(links, n)
  {
    forall n ensures n in names <==> (n in Names(links) && !(n in removed && Single(links, n))) || n in added {
      RemovedNames(links, ids, removed, n);
    }
  }

  /** Links are compared by name only: the URL of a link that stays is never corrected. */
  method ReconcileProjectLinks(project: Project, server: LinkServer) returns (ok: bool, ghost fx: Effects<string>)
    requires GivenOut(server.links, server.nextId)
    modifies project`managedLinkNames, server`links, server`nextId, server`calls, server`errors
    ensures var managed, wanted := Elements(old(project.managedLinkNames)), SpecNames(project.links);
            var live := Names(old(server.links));
            && IsPass(live, managed, wanted, fx, ok)
            && (Names(server.links) == After(live, fx) <==>
                forall n :: n in fx.removed ==> Single(old(server.links), n))
            && (ok ==> After(live, fx) == Target(live, managed, wanted) && fx.removed == (managed - wanted) * live)
    ensures DistinctLive(old(server.links)) && DistinctSpec(project.links) ==> DistinctLive(server.links)
    ensures GivenOut(server.links, server.nextId)
    ensures KeepsUrls(old(server.links), old(server.nextId), server.links, project.links)
    ensures ok <==> server.errors == old(server.errors)
    ensures ok ==> Elements(project.managedLinkNames) == SpecNames(project.links)
    ensures !ok ==> project.managedLinkNames == old(project.managedLinkNames)
  {
    ghost var links := server.links;
    ghost var managed, wanted := Elements(project.managedLinkNames), SpecNames(project.links);
    ghost var removed, added := {}, {};
    fx := Effects({}, {});
    var current := server.ListProjectLinks();
    if current.None? {
      return false, fx;
    }
    var ids := IdsByName(current.value, server.links);
    var desiredNames := SpecNames(project.links);

    ok, removed := DeleteDropped(project.managedLinkNames, desiredNames, ids, server);
    fx := Effects({}, removed);
    LeftNames(links, ids, removed, {}, Names(server.links));
    if !ok {
      return;
    }

    ok, added := CreateMissing(project.links, ids, server);
    fx := Effects(added, removed);
    LeftNames(links, ids, removed, added, Names(server.links));
    if !ok {
      return;
    }

    project.managedLinkNames := LinkNames(project.links);
    OneFinalState(Names(links), managed, wanted, fx);
  }

  method LinkNames(links: seq<Link>) returns (names: seq<string>)
    ensures Elements(names) == SpecNames(links)
  {
    names := [];
    for i := 0 to |links|
      invariant Elements(names) == SpecNames(links[..i])
    {
      assert Elements(names + [links[i].name]) == Elements(names) + {links[i].name};
      SpecNamesOneMore(links, i);
      names := names + [links[i].name];
    }
    assert links[..|links|] == links;
  }

  // ----- settings -----

  /** The managed keys that are no longer in the spec, in list order. */
  function DroppedKeys(managed: seq<string>, spec: map<string, string>): seq<string> {
    if managed == [] then []
    else
      var init, last := DroppedKeys(managed[..|managed| - 1], spec), managed[|managed| - 1];
      if last in spec then init else init + [last]
  }

  lemma {:induction false} DroppedKeysAre(managed: seq<string>, spec: map<string, string>)
    ensures Elements(DroppedKeys(managed, spec)) == Elements(managed) - spec.Keys
  {
    if managed != [] {
      var init, last := managed[..|managed| - 1], managed[|managed| - 1];
      DroppedKeysAre(init, spec);
      assert managed == init + [last];
      assert Elements(managed) == Elements(init) + {last};
      assert Elements(DroppedKeys(init, spec) + [last]) == Elements(DroppedKeys(init, spec)) + {last};
    }
  }

  /** The part of a spec with the given keys. */
  function Part(spec: map<string, string>, keys: set<string>): map<string, string> {
    map k | k in spec && k in keys :: spec[k]
  }

  /** Sets every key in any order, then resets the dropped keys in one call. */
  method ReconcileProjectSettings(project: Project, server: SettingsServer)
    returns (ok: bool, ghost set_: set<string>, ghost reset: bool)
    modifies project`managedSettings, server`settings, server`calls, server`errors
    ensures var dropped := SettingsServer.ResetKeys(DroppedKeys(old(project.managedSettings), project.settings));
            && set_ <= project.settings.Keys
            && server.settings ==
               (old(server.settings) + Part(project.settings, set_)) - (if reset then dropped else {})
            && (reset ==> set_ == project.settings.Keys)
            && (ok ==> reset && server.settings == (old(server.settings) + project.settings) - dropped)
    ensures ok <==> server.errors == old(server.errors)
    ensures ok ==> Elements(project.managedSettings) == project.settings.Keys
    ensures !ok ==> project.managedSettings == old(project.managedSettings)
  {
    ghost var before := server.settings;
    var spec := project.settings;
    ghost var did := false;
    ok, set_, reset := true, {}, false;
    var rest := spec.Keys;
    assert before + Part(spec, set_) == before;
    while rest != {}
      invariant rest + set_ == spec.Keys && rest !! set_
      invariant server.settings == before + Part(spec, set_)
      invariant project.managedSettings == old(project.managedSettings)
      invariant ok && server.errors == old(server.errors)
    {
      var k :| k in rest;
      ok, did := server.SetSetting(k, spec[k]);
      if did {
        set_ := set_ + {k};
      }
      if !ok {
        assert server.settings - {} == server.settings;
        return;
      }
      rest := rest - {k};
    }
    assert Part(spec, set_) == spec;

    var toReset := [];
    for i := 0 to |project.managedSettings|
      invariant toReset == DroppedKeys(project.managedSettings[..i], spec)
    {
      assert project.managedSettings[..i + 1][..i] == project.managedSettings[..i];
      if project.managedSettings[i] !in spec {
        toReset := toReset + [project.managedSettings[i]];
      }
    }
    assert project.managedSettings[..|project.managedSettings|] == project.managedSettings;
    assert (before + spec) - {} == before + spec == server.settings;
    ok, reset := server.ResetSettings(toReset);
    if !ok {
      return;
    }
    var managed := KeyList(spec.Keys);
    project.managedSettings := managed;
  }

  /** With comma-free keys a successful pass ends with the live settings minus the dropped keys,
      overridden by the spec; and only then does the reset stay within what the operator owns. */
  lemma SettingsFinalState(live: map<string, string>, managed: seq<string>, spec: map<string, string>)
    ensures var dropped := DroppedKeys(managed, spec);
            && (SettingsServer.ResetKeys(dropped) == Elements(managed) - spec.Keys <==>
                forall key :: key in Elements(managed) - spec.Keys ==> ',' !in key)
            && ((forall key :: key in Elements(managed) - spec.Keys ==> ',' !in key) ==>
                (live + spec) - SettingsServer.ResetKeys(dropped) == (live - (Elements(managed) - spec.Keys)) + spec)
  {
    var dropped := DroppedKeys(managed, spec);
    DroppedKeysAre(managed, spec);
    ResetReachesItsKeys(dropped);
    assert forall key :: key in dropped <==> key in Elements(dropped);
  }

  /** With comma-free keys a settings pass, complete or not, is a pass on the set of keys: it sets only
      keys of the spec and resets only managed keys that left it. */
  lemma SettingsPassOwnsItsKeys(
      live: map<string, string>, managed: seq<string>, spec: map<string, string>,
      set_: set<string>, reset: bool, ok: bool)
    requires set_ <= spec.Keys && (ok ==> reset)
    requires forall key :: key in Elements(managed) - spec.Keys ==> ',' !in key
    ensures var fx := Effects(set_, if reset then SettingsServer.ResetKeys(DroppedKeys(managed, spec)) else {});
            && IsPass(live.Keys, Elements(managed), spec.Keys, fx, ok)
            && ((live + Part(spec, set_)) - fx.removed).Keys == After(live.Keys, fx)
  {
    SettingsFinalState(live, managed, spec);
    assert Part(spec, set_).Keys == set_;
  }
}
