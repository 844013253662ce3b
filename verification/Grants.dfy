/** The string form in which a project's status remembers permission grants
    (internal/controller/sonarqubeproject_controller.go, reconcileProjectPermissions). */
module Grants {
  import opened Outcomes
  import opened Text

  const USER := "user"
  const GROUP := "group"

  datatype Grant = Grant(kind: string, subject: string, permission: string)

  /** One entry of spec.permissions. The group wins when it is not empty. */
  datatype ProjectPermission = ProjectPermission(user: string, group: string, permissions: seq<string>) {
    function Kind(): string {
      if group != "" then GROUP else USER
    }

    function Subject(): string {
      if group != "" then group else user
    }
  }

  function Encode(g: Grant): string {
    g.kind + ":" + g.subject + ":" + g.permission
  }

  /** strings.SplitN(key, ":", 3), when it gives three parts. */
  function Decode(key: string): Option<Grant> {
    var parts := SplitN(key, ':', 3);
    if |parts| == 3 then Some(Grant(parts[0], parts[1], parts[2])) else None
  }

  /** The kinds a grant is encoded with. */
  predicate Known(g: Grant) {
    g.kind == USER || g.kind == GROUP
  }

  /** The key decodes to a grant some call is made for. */
  predicate Actionable(key: string) {
    Decode(key).Some? && Known(Decode(key).value)
  }

  lemma SplitPair(subject: string, permission: string)
    requires ':' !in subject
    ensures SplitN(subject + [':'] + permission, ':', 2) == [subject, permission]
  {
    SplitNMiddle(subject, ':', permission, 2);
    SplitNOne(permission, ':');
  }

  /** The three parts of a key whose kind has no ":": the subject ends at the next ":". */
  lemma SplitKey(kind: string, rest: string)
    requires ':' !in kind && ':' in rest
    ensures var i := IndexOf(rest, ':');
            SplitN(kind + ":" + rest, ':', 3) == [kind, rest[..i], rest[i + 1..]]
  {
    var i := IndexOf(rest, ':');
    var subject, permission := rest[..i], rest[i + 1..];
    CutAt(rest, i);
    SplitPair(subject, permission);
    SplitNMiddle(kind, ':', rest, 3);
  }

  lemma FirstColon(subject: string, permission: string)
    ensures var rest := subject + ":" + permission;
            var i := IndexOf(rest, ':');
            && i < |rest| && ':' !in rest[..i]
            && (i == |subject| <==> ':' !in subject)
            && (i == |subject| ==> rest[..i] == subject && rest[i + 1..] == permission)
  {
    var rest := subject + ":" + permission;
    assert rest[|subject|] == ':';
    if ':' !in subject {
      IndexOfMiddle(subject, ':', permission);
    } else {
      var j :| 0 <= j < |subject| && subject[j] == ':';
      assert rest[j] == ':';
    }
  }

  lemma DecodedParts(g: Grant)
    requires ':' !in g.kind
    ensures var rest := g.subject + ":" + g.permission;
            var i := IndexOf(rest, ':');
            i < |rest| && Decode(Encode(g)) == Some(Grant(g.kind, rest[..i], rest[i + 1..]))
  {
    var rest := g.subject + ":" + g.permission;
    assert rest[|g.subject|] == ':';
    assert Encode(g) == g.kind + ":" + rest;
    SplitKey(g.kind, rest);
  }

  /** Decoding an encoded grant gives it back exactly when its subject has no ":", whatever the
      permission text is. Otherwise it gives a grant whose subject is cut at the first ":". */
  lemma DecodeUndoesEncode(g: Grant)
    requires Known(g)
    ensures Actionable(Encode(g)) && Decode(Encode(g)).value.kind == g.kind
    ensures ':' !in Decode(Encode(g)).value.subject
    ensures Decode(Encode(g)) == Some(g) <==> ':' !in g.subject
  {
    DecodedParts(g);
    FirstColon(g.subject, g.permission);
  }

  /** A call is made exactly for keys of the two kinds: another kind is passed over. */
  lemma OtherKindsArePassedOver(kind: string, subject: string, permission: string)
    requires ':' !in kind
    ensures Actionable(Encode(Grant(kind, subject, permission))) <==> kind == "user" || kind == "group"
  {
    DecodedParts(Grant(kind, subject, permission));
  }

  /** So is a key with fewer than two ":". */
  lemma ShortKeysArePassedOver(a: string, b: string)
    requires ':' !in a && ':' !in b
    ensures !Actionable(a) && !Actionable(a + ":" + b)
  {
    SplitNWhole(a, ':', 3);
    SplitNMiddle(a, ':', b, 3);
    SplitNWhole(b, ':', 2);
  }

  /** No two keys decode to the same grant. */
  lemma DecodeIsInjective(key: string, key': string)
    requires Decode(key) == Decode(key')
    ensures Decode(key).Some? ==> key == key'
  {
    JoinSplitN(key, ':', 3);
    JoinSplitN(key', ':', 3);
    if Decode(key).Some? {
      var parts, parts' := SplitN(key, ':', 3), SplitN(key', ':', 3);
      assert parts == [parts[0], parts[1], parts[2]] && parts' == [parts[0], parts[1], parts[2]];
    }
  }

  // ----- sets of grants -----

  /** The grants the operator acts on when it works through a set of keys. */
  function Decoded(keys: set<string>): set<Grant> {
    set k | k in keys && Actionable(k) :: Decode(k).value
  }

  /** The grants a spec lists. */
  function Listed(permissions: seq<ProjectPermission>): set<Grant> {
    if permissions == [] then {}
    else
      var p := permissions[|permissions| - 1];
      Listed(permissions[..|permissions| - 1]) + ListedUnder(p.Kind(), p.Subject(), p.permissions)
  }

  function ListedUnder(kind: string, subject: string, permissions: seq<string>): set<Grant> {
    set perm | perm in permissions :: Grant(kind, subject, perm)
  }

  /** The keys a spec is turned into. */
  function Encoded(grants: set<Grant>): set<string> {
    set g | g in grants :: Encode(g)
  }

  lemma {:induction false} ListedAreKnown(permissions: seq<ProjectPermission>)
    ensures forall g :: g in Listed(permissions) ==> Known(g)
  {
    if permissions != [] {
      ListedAreKnown(permissions[..|permissions| - 1]);
    }
  }

  /** The grant one permission of a spec entry asks for: to the group if the entry names one, else to
      the user. */
  ghost predicate Asks(p: ProjectPermission, x: string, g: Grant) {
    x in p.permissions && g == if p.group != "" then Grant("group", p.group, x) else Grant("user", p.user, x)
  }

  lemma EntryListsExactly(p: ProjectPermission, g: Grant)
    ensures g in ListedUnder(p.Kind(), p.Subject(), p.permissions) <==> exists x :: Asks(p, x, g)
  {
    if g in ListedUnder(p.Kind(), p.Subject(), p.permissions) {
      assert Asks(p, g.permission, g);
    }
  }

  /** A spec lists exactly the grants its entries ask for. */
  lemma {:induction false} ListedExactly(permissions: seq<ProjectPermission>, g: Grant)
    ensures g in Listed(permissions) <==>
            exists i, x :: 0 <= i < |permissions| && Asks(permissions[i], x, g)
  {
    if permissions != [] {
      var init, last := permissions[..|permissions| - 1], permissions[|permissions| - 1];
      ListedExactly(init, g);
      EntryListsExactly(last, g);
      forall i, x | 0 <= i < |permissions| && Asks(permissions[i], x, g) ensures g in Listed(permissions) {
        if i < |init| {
          assert Asks(init[i], x, g);
        }
      }
      if g in Listed(init) {
        var i, x :| 0 <= i < |init| && Asks(init[i], x, g);
        assert Asks(permissions[i], x, g);
      } else if g in Listed(permissions) {
        var x :| Asks(last, x, g);
        assert Asks(permissions[|init|], x, g);
      }
    }
  }

  /** The keys stored for a spec, letter by letter. */
  lemma KeysExactly(permissions: seq<ProjectPermission>, i: nat, x: string)
    requires i < |permissions| && x in permissions[i].permissions
    ensures var p := permissions[i];
            (if p.group != "" then "group:" + p.group + ":" + x else "user:" + p.user + ":" + x)
            in Encoded(Listed(permissions))
  {
    var p := permissions[i];
    var g := if p.group != "" then Grant("group", p.group, x) else Grant("user", p.user, x);
    assert Asks(p, x, g);
    ListedExactly(permissions, g);
    GroupKey(p.group, x);
    UserKey(p.user, x);
    assert Encode(g) in Encoded(Listed(permissions));
  }

  lemma GroupKey(group: string, x: string)
    ensures Encode(Grant("group", group, x)) == "group:" + group + ":" + x
  {
    assert "group" + ":" == "group:";
  }

  lemma UserKey(user: string, x: string)
    ensures Encode(Grant("user", user, x)) == "user:" + user + ":" + x
  {
    assert "user" + ":" == "user:";
  }

  /** A grant with a ":"-free subject that an entry asks for is among those the calls are made for. */
  lemma AskedIsDecoded(permissions: seq<ProjectPermission>, i: nat, x: string, g: Grant)
    requires i < |permissions| && Asks(permissions[i], x, g) && ':' !in g.subject
    ensures g in Decoded(Encoded(Listed(permissions)))
  {
    ListedExactly(permissions, g);
    DecodeUndoesEncode(g);
    assert Encode(g) in Encoded(Listed(permissions));
  }

  /** The calls a pass makes for a spec are for the grants the spec lists, exactly when no subject in
      the spec has a ":". */
  lemma CallsMatchSpec(permissions: seq<ProjectPermission>)
    ensures Decoded(Encoded(Listed(permissions))) == Listed(permissions) <==>
            forall g :: g in Listed(permissions) ==> ':' !in g.subject
  {
    var listed := Listed(permissions);
    ListedAreKnown(permissions);
    forall g | g in listed
      ensures Actionable(Encode(g)) && ':' !in Decode(Encode(g)).value.subject
      ensures Decode(Encode(g)) == Some(g) <==> ':' !in g.subject
      ensures Encode(g) in Encoded(listed) && Decode(Encode(g)).value in Decoded(Encoded(listed))
    {
      DecodeUndoesEncode(g);
      assert Encode(g) in Encoded(listed);
    }
    forall d | d in Decoded(Encoded(listed))
      ensures exists g :: g in listed && d == Decode(Encode(g)).value
    {
      var k :| k in Encoded(listed) && Actionable(k) && d == Decode(k).value;
      var g :| g in listed && k == Encode(g);
    }
  }

  /** Removing a key that is not wanted never removes a wanted grant. */
  lemma UnwantedKeyUnwantedGrant(key: string, keys: set<string>)
    requires Actionable(key) && key !in keys
    ensures Decode(key).value !in Decoded(keys)
  {
    if Decode(key).value in Decoded(keys) {
      var k :| k in keys && Actionable(k) && Decode(k).value == Decode(key).value;
      DecodeIsInjective(key, k);
    }
  }

  /** Specs with equal grant sets store equal lists, because the stored list is the one strictly
      sorted list of the keys. */
  lemma EqualGrantsEqualLists(
      permissions: seq<ProjectPermission>, permissions': seq<ProjectPermission>, list: seq<string>, list': seq<string>)
    requires Listed(permissions) == Listed(permissions')
    requires StrictlySorted(list) && Elements(list) == Encoded(Listed(permissions))
    requires StrictlySorted(list') && Elements(list') == Encoded(Listed(permissions'))
    ensures list == list'
  {
    SortedListIsUnique(list, list');
  }
}
