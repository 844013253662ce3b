/** A set of items kept by the SonarQube server, reached through calls that may fail. */
module Remote {
  import opened Outcomes
  import Text

  /** What becomes of call number i. A script is finite; calls beyond it succeed. */
  function Fate(net: seq<Outcome>, i: nat): Outcome {
    if i < |net| then net[i] else Done
  }

  function Miss(ok: bool): nat {
    if ok then 0 else 1
  }

  /** calls counts the calls made and errors those whose caller saw an error.
      Adding a present item and removing an absent one succeed without effect. */
  class RemoteSet<T(==)> {
    const net: seq<Outcome>
    var live: set<T>
    var calls: nat
    var errors: nat

    constructor (net: seq<Outcome>, live: set<T>)
      ensures this.net == net && this.live == live && calls == errors == 0
    {
      this.net, this.live, calls, errors := net, live, 0, 0;
    }

    method List() returns (items: Option<set<T>>)
      modifies this`calls, this`errors
      ensures calls == old(calls) + 1 && errors == old(errors) + Miss(items.Some?)
      ensures items == if Fate(net, old(calls)).Ok() then Some(live) else None
    {
      items := if Fate(net, calls).Ok() then Some(live) else None;
      calls, errors := calls + 1, errors + Miss(items.Some?);
    }

    /** did is {x} when the call took effect. */
    method Add(x: T) returns (ok: bool, ghost did: set<T>)
      modifies this`live, this`calls, this`errors
      ensures calls == old(calls) + 1 && errors == old(errors) + Miss(ok)
      ensures ok == Fate(net, old(calls)).Ok()
      ensures did == (if Fate(net, old(calls)).Effective() then {x} else {}) && live == old(live) + did
    {
      did := {};
      if Fate(net, calls).Effective() {
        live, did := live + {x}, {x};
      }
      ok := Fate(net, calls).Ok();
      calls, errors := calls + 1, errors + Miss(ok);
    }

    method Remove(x: T) returns (ok: bool, ghost did: set<T>)
      modifies this`live, this`calls, this`errors
      ensures calls == old(calls) + 1 && errors == old(errors) + Miss(ok)
      ensures ok == Fate(net, old(calls)).Ok()
      ensures did == (if Fate(net, old(calls)).Effective() then {x} else {}) && live == old(live) - did
    {
      did := {};
      if Fate(net, calls).Effective() {
        live, did := live - {x}, {x};
      }
      ok := Fate(net, calls).Ok();
      calls, errors := calls + 1, errors + Miss(ok);
    }
  }

  /** A named URL on a project's page. */
  datatype Link = Link(name: string, url: string)

  datatype LiveLink = LiveLink(id: nat, link: Link)

  /** list holds exactly the links, in some order. */
  ghost predicate ListsLinks(list: seq<LiveLink>, links: map<nat, Link>) {
    && (forall i :: 0 <= i < |list| ==> list[i].id in links && links[list[i].id] == list[i].link)
    && (forall id :: id in links ==> exists i :: 0 <= i < |list| && list[i].id == id)
  }

  /** The links of one project, by the id the server gave them. Deleting an unknown id succeeds
      without effect. */
  class LinkServer {
    const net: seq<Outcome>
    var links: map<nat, Link>
    var nextId: nat
    var calls: nat
    var errors: nat

    constructor (net: seq<Outcome>, links: map<nat, Link>, nextId: nat)
      ensures this.net == net && this.links == links && this.nextId == nextId && calls == errors == 0
    {
      this.net, this.links, this.nextId, calls, errors := net, links, nextId, 0, 0;
    }

    method ListProjectLinks() returns (items: Option<seq<LiveLink>>)
      modifies this`calls, this`errors
      ensures calls == old(calls) + 1 && errors == old(errors) + Miss(items.Some?)
      ensures items.Some? <==> Fate(net, old(calls)).Ok()
      ensures items.Some? ==> ListsLinks(items.value, links)
    {
      var o := Fate(net, calls);
      calls, errors := calls + 1, errors + Miss(o.Ok());
      if !o.Ok() {
        return None;
      }
      var list: seq<LiveLink>, rest := [], links.Keys;
      while rest != {}
        invariant rest <= links.Keys
        invariant forall i :: 0 <= i < |list| ==> list[i].id in links && links[list[i].id] == list[i].link
        invariant forall id :: id in links ==> id in rest || exists i :: 0 <= i < |list| && list[i].id == id
      {
        var id :| id in rest;
        var longer := list + [LiveLink(id, links[id])];
        assert longer[|list|].id == id;
        assert forall i :: 0 <= i < |list| ==> longer[i] == list[i];
        list, rest := longer, rest - {id};
      }
      items := Some(list);
    }

    method CreateProjectLink(link: Link) returns (ok: bool, ghost did: bool)
      modifies this`links, this`nextId, this`calls, this`errors
      ensures calls == old(calls) + 1 && errors == old(errors) + Miss(ok)
      ensures ok == Fate(net, old(calls)).Ok() && did == Fate(net, old(calls)).Effective()
      ensures links == (if did then old(links)[old(nextId) := link] else old(links))
      ensures nextId == (if did then old(nextId) + 1 else old(nextId))
    {
      var o := Fate(net, calls);
      did, ok := o.Effective(), o.Ok();
      if o.Effective() {
        links, nextId := links[nextId := link], nextId + 1;
      }
      calls, errors := calls + 1, errors + Miss(ok);
    }

    method DeleteProjectLink(id: nat) returns (ok: bool, ghost did: bool)
      modifies this`links, this`calls, this`errors
      ensures calls == old(calls) + 1 && errors == old(errors) + Miss(ok)
      ensures ok == Fate(net, old(calls)).Ok() && did == Fate(net, old(calls)).Effective()
      ensures links == if did then old(links) - {id} else old(links)
    {
      var o := Fate(net, calls);
      did, ok := o.Effective(), o.Ok();
      if o.Effective() {
        links := links - {id};
      }
      calls, errors := calls + 1, errors + Miss(ok);
    }
  }

  /** The settings of one project. A reset names its keys in one comma-separated parameter. */
  class SettingsServer {
    const net: seq<Outcome>
    var settings: map<string, string>
    var calls: nat
    var errors: nat

    constructor (net: seq<Outcome>, settings: map<string, string>)
      ensures this.net == net && this.settings == settings && calls == errors == 0
    {
      this.net, this.settings, calls, errors := net, settings, 0, 0;
    }

    method SetSetting(key: string, value: string) returns (ok: bool, ghost did: bool)
      modifies this`settings, this`calls, this`errors
      ensures calls == old(calls) + 1 && errors == old(errors) + Miss(ok)
      ensures ok == Fate(net, old(calls)).Ok() && did == Fate(net, old(calls)).Effective()
      ensures settings == if did then old(settings)[key := value] else old(settings)
    {
      var o := Fate(net, calls);
      did, ok := o.Effective(), o.Ok();
      if o.Effective() {
        settings := settings[key := value];
      }
      calls, errors := calls + 1, errors + Miss(ok);
    }

    /** What the server resets when the client is asked to reset keys. */
    static function ResetKeys(keys: seq<string>): set<string> {
      if |keys| == 0 then {} else Text.Elements(Text.Split(Text.Join(keys, ','), ','))
    }

    /** The client makes no call for an empty list. */
    method ResetSettings(keys: seq<string>) returns (ok: bool, ghost did: bool)
      modifies this`settings, this`calls, this`errors
      ensures |keys| == 0 ==> ok && did && unchanged(this)
      ensures |keys| != 0 ==>
                && calls == old(calls) + 1 && errors == old(errors) + Miss(ok)
                && ok == Fate(net, old(calls)).Ok() && did == Fate(net, old(calls)).Effective()
      ensures errors == old(errors) + Miss(ok) && (ok ==> did)
      ensures settings == if did then old(settings) - ResetKeys(keys) else old(settings)
    {
      if |keys| == 0 {
        assert settings - {} == settings;
        return true, true;
      }
      var o := Fate(net, calls);
      did, ok := o.Effective(), o.Ok();
      if o.Effective() {
        settings := settings - ResetKeys(keys);
      }
      calls, errors := calls + 1, errors + Miss(ok);
    }
  }

  /** A reset reaches exactly the keys it was asked for when, and only when, no key has a comma. */
  lemma ResetReachesItsKeys(keys: seq<string>)
    ensures SettingsServer.ResetKeys(keys) == Text.Elements(keys) <==>
            forall key :: key in keys ==> ',' !in key
  {
    if keys != [] {
      var pieces := Text.Split(Text.Join(keys, ','), ',');
      if forall key :: key in keys ==> ',' !in key {
        Text.SplitJoin(keys, ',');
      } else {
        var key :| key in keys && ',' in key;
        assert key !in Text.Elements(pieces);
        assert key in Text.Elements(keys);
      }
    }
  }
}
