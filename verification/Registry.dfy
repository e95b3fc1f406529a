/**
 The lookup daemon's registration database, its protocol commands and the HTTP requests that
 change it. What they make of the registry is the value that `RegistrySpec` describes.
 */
module Registry {
  import opened RegistrySpec
  import opened Wrappers

  ghost predicate Distinct<T(!new)>(s: seq<T>) {
    forall i, j | 0 <= i < j < |s| :: s[i] != s[j]
  }

  ghost function Members<T>(s: seq<T>): set<T> {
    set x | x in s
  }

  /** `rs` lists the set `ks`, each member once. */
  ghost predicate Lists<T(!new)>(rs: seq<T>, ks: set<T>) {
    Distinct(rs) && Members(rs) == ks
  }

  lemma OneMore<T(!new)>(s: seq<T>, x: T)
    ensures Members(s + [x]) == Members(s) + {x}
    ensures Distinct(s) && x !in s ==> Distinct(s + [x])
  {
  }

  ghost function Ids(ps: seq<Producer>): (ids: seq<string>)
    ensures |ids| == |ps| && forall i | 0 <= i < |ps| :: ids[i] == ps[i].id
  {
    seq(|ps|, i requires 0 <= i < |ps| => ps[i].id)
  }

  /** The ids listed under any of the registrations `ks`. */
  ghost function IdsUnder(t: Table, ks: set<Registration>): set<string> {
    set k, id | k in ks && k in t && id in t[k] :: id
  }

  ghost predicate FromUnder(t: Table, ks: set<Registration>, p: Producer) {
    exists k :: k in ks && ListedAt(t, k, p.id) && t[k][p.id] == p
  }

  /** Each of `ids` once, with a producer that is listed for it under one of `ks`. */
  ghost predicate Found(t: Table, ks: set<Registration>, ids: set<string>, ps: seq<Producer>) {
    Lists(Ids(ps), ids) && forall p | p in ps :: FromUnder(t, ks, p)
  }

  /** All ids under `ks`, one producer for each. */
  ghost predicate OnePerId(t: Table, ks: set<Registration>, ps: seq<Producer>) {
    Found(t, ks, IdsUnder(t, ks), ps)
  }

  lemma FoundOneMore(t: Table, ks: set<Registration>, ids: set<string>, ps: seq<Producer>, p: Producer)
    requires Found(t, ks, ids, ps) && p.id !in ids && FromUnder(t, ks, p)
    ensures Found(t, ks, ids + {p.id}, ps + [p])
  {
    assert Ids(ps + [p]) == Ids(ps) + [p.id];
    OneMore(Ids(ps), p.id);
  }

  lemma FoundUnderMore(t: Table, ks: set<Registration>, k: Registration, ids: set<string>, ps: seq<Producer>)
    requires Found(t, ks, ids, ps)
    ensures Found(t, ks + {k}, ids, ps)
  {
    forall p | p in ps ensures FromUnder(t, ks + {k}, p) {
      assert FromUnder(t, ks, p);
    }
  }

  lemma SameIds(ps: seq<Producer>)
    ensures (set p | p in ps :: p.id) == Members(Ids(ps))
  {
    assert forall i | 0 <= i < |ps| :: Ids(ps)[i] == ps[i].id && ps[i] in ps && Ids(ps)[i] in Ids(ps);
  }

  lemma IdsUnderMore(t: Table, ks: set<Registration>, k: Registration)
    requires k in t
    ensures IdsUnder(t, ks + {k}) == IdsUnder(t, ks) + t[k].Keys
  {
  }

  /** What was found before is found also with one more registration to look under. */
  lemma GatherStart(t: Table, done: set<Registration>, k: Registration, ps: seq<Producer>)
    requires OnePerId(t, done, ps) && k in t
    ensures (set p | p in ps :: p.id) == IdsUnder(t, done) && Found(t, done + {k}, IdsUnder(t, done), ps)
    ensures IdsUnder(t, done + {k}) == IdsUnder(t, done) + t[k].Keys
  {
    SameIds(ps);
    FoundUnderMore(t, done, k, IdsUnder(t, done), ps);
    IdsUnderMore(t, done, k);
  }

  lemma UnlistedOneMore(t: Table, ks: set<Registration>, k: Registration, id: string)
    ensures Unlisted(Unlisted(t, ks, id), {k}, id) == Unlisted(t, ks + {k}, id)
  {
    assert forall x | x in t :: t[x] - {id} - {id} == t[x] - {id};
  }

  lemma OneSeen(results: set<string>, under: set<string>, keys: set<string>, left: set<string>, id: string)
    requires results == under + (keys - left) && id in left && left <= keys
    ensures results + {id} == under + (keys - (left - {id}))
    ensures id in results ==> results + {id} == results
  {
  }

  lemma OneScanned(all: set<Registration>, left: set<Registration>, k: Registration)
    requires k in left
    ensures all - (left - {k}) == if k in all then all - left + {k} else all - left
    ensures k !in all - left
  {
  }

  lemma GatherStep(t: Table, k: Registration, done: set<Registration>, ids: set<string>, ps: seq<Producer>, id: string)
    requires Keyed(t) && ListedAt(t, k, id) && Found(t, done + {k}, ids, ps)
    ensures t[k][id].id == id
    ensures id !in ids ==> Found(t, done + {k}, ids + {id}, ps + [t[k][id]])
  {
    if id !in ids {
      assert FromUnder(t, done + {k}, t[k][id]);
      FoundOneMore(t, done + {k}, ids, ps, t[k][id]);
    }
  }

  class RegistrationDB {
    var registrationMap: Table

    constructor ()
      ensures registrationMap == map[]
    {
      registrationMap := map[];
    }

    method AddRegistration(k: Registration)
      modifies this
      ensures registrationMap == Opened(old(registrationMap), k)
    {
      if k !in registrationMap {
        registrationMap := registrationMap[k := map[]];
      }
    }

    method AddProducer(k: Registration, p: Producer) returns (added: bool)
      modifies this
      ensures registrationMap == Listed(old(registrationMap), k, p)
      ensures added <==> !ListedAt(old(registrationMap), k, p.id)
    {
      if k !in registrationMap {
        registrationMap := registrationMap[k := map[]];
      }
      var producers := registrationMap[k];
      var found := p.id in producers;
      if !found {
        registrationMap := registrationMap[k := producers[p.id := p]];
      }
      added := !found;
    }

    /** The registration stays, even when nobody is left. */
    method RemoveProducer(k: Registration, id: string) returns (removed: bool, left: nat)
      modifies this
      ensures registrationMap == Unlisted(old(registrationMap), {k}, id)
      ensures removed <==> ListedAt(old(registrationMap), k, id)
      ensures left == if k in registrationMap then |registrationMap[k]| else 0
    {
      if k !in registrationMap {
        return false, 0;
      }
      var producers := registrationMap[k];
      removed := id in producers;
      registrationMap := registrationMap[k := producers - {id}];
      left := |producers - {id}|;
    }

    method RemoveRegistration(k: Registration)
      modifies this
      ensures registrationMap == old(registrationMap) - {k}
    {
      registrationMap := registrationMap - {k};
    }

    /** The direct lookup, without a wildcard, finds what the scan would. */
    method FindRegistrations(category: string, key: string, subkey: string) returns (rs: seq<Registration>)
      ensures Lists(rs, Matching(registrationMap, category, key, subkey))
    {
      rs := [];
      if key != "*" && subkey != "*" {
        var k := Registration(category, key, subkey);
        if k in registrationMap {
          rs := [k];
        }
        return;
      }
      ghost var all := Matching(registrationMap, category, key, subkey);
      var left := registrationMap.Keys;
      while left != {}
        invariant left <= registrationMap.Keys && Lists(rs, all - left)
        decreases |left|
      {
        var k :| k in left;
        OneScanned(all, left, k);
        if IsMatch(k, category, key, subkey) {
          OneMore(rs, k);
          rs := rs + [k];
        }
        left := left - {k};
      }
    }

    /** Likewise for producers, one for each id. */
    method FindProducers(category: string, key: string, subkey: string) returns (ps: seq<Producer>)
      requires Keyed(registrationMap)
      ensures OnePerId(registrationMap, Matching(registrationMap, category, key, subkey), ps)
    {
      ghost var t, all := registrationMap, Matching(registrationMap, category, key, subkey);
      if key != "*" && subkey != "*" {
        var k := Registration(category, key, subkey);
        ps := FindDirectly(k);
        assert all == if k in t then {k} else {};
        return;
      }
      ps := [];
      var left := registrationMap.Keys;
      while left != {}
        invariant left <= registrationMap.Keys
        invariant OnePerId(t, all - left, ps)
        decreases |left|
      {
        var k :| k in left;
        OneScanned(all, left, k);
        if IsMatch(k, category, key, subkey) {
          ps := Gather(k, ps, all - left);
        }
        left := left - {k};
      }
      assert all - left == all;
    }

    /** The producers under a registration; none if it does not exist. */
    method FindDirectly(k: Registration) returns (ps: seq<Producer>)
      requires Keyed(registrationMap)
      ensures OnePerId(registrationMap, if k in registrationMap then {k} else {}, ps)
    {
      ps := [];
      if k in registrationMap {
        ps := Gather(k, [], {});
        assert {} + {k} == {k};
      }
    }

    /** Adds those of the producers under `k` whose ids are not among the results yet. */
    method Gather(k: Registration, sofar: seq<Producer>, ghost done: set<Registration>) returns (ps: seq<Producer>)
      requires Keyed(registrationMap) && k in registrationMap
      requires OnePerId(registrationMap, done, sofar)
      ensures OnePerId(registrationMap, done + {k}, ps)
    {
      ghost var t, under := registrationMap, IdsUnder(registrationMap, done);
      ps := sofar;
      var results := set p | p in sofar :: p.id;
      GatherStart(t, done, k, sofar);
      var keys := registrationMap[k].Keys;
      var left := keys;
      while left != {}
        invariant left <= keys && results == under + (keys - left)
        invariant Found(t, done + {k}, results, ps)
        decreases |left|
      {
        var id :| id in left;
        var producer := registrationMap[k][id];
        GatherStep(t, k, done, results, ps, id);
        OneSeen(results, under, keys, left, id);
        if producer.id !in results {
          results := results + {producer.id};
          ps := ps + [producer];
        }
        left := left - {id};
      }
    }

    method LookupRegistrations(id: string) returns (rs: seq<Registration>)
      ensures Lists(rs, ListedUnder(registrationMap, id))
    {
      rs := [];
      var left := registrationMap.Keys;
      while left != {}
        invariant left <= registrationMap.Keys
        invariant Lists(rs, ListedUnder(registrationMap, id) - left)
        decreases |left|
      {
        var k :| k in left;
        if id in registrationMap[k] {
          OneMore(rs, k);
          rs := rs + [k];
        }
        left := left - {k};
      }
    }

    // ---- The loops of commands and requests over registrations ----

    /** Takes a producer off all of some registrations. */
    method RemoveProducerFrom(rs: seq<Registration>, id: string)
      modifies this
      ensures registrationMap == Unlisted(old(registrationMap), Members(rs), id)
    {
      for i := 0 to |rs|
        invariant registrationMap == Unlisted(old(registrationMap), Members(rs[..i]), id)
      {
        OneMore(rs[..i], rs[i]);
        assert rs[..i + 1] == rs[..i] + [rs[i]];
        UnlistedOneMore(old(registrationMap), Members(rs[..i]), rs[i], id);
        var _, _ := RemoveProducer(rs[i], id);
      }
      assert rs[..|rs|] == rs;
    }

    method RemoveRegistrations(rs: seq<Registration>)
      modifies this
      ensures registrationMap == old(registrationMap) - Members(rs)
    {
      for i := 0 to |rs|
        invariant registrationMap == old(registrationMap) - Members(rs[..i])
      {
        OneMore(rs[..i], rs[i]);
        assert rs[..i + 1] == rs[..i] + [rs[i]];
        RemoveRegistration(rs[i]);
      }
      assert rs[..|rs|] == rs;
    }
  }

  /** The daemon: its database and its open connections. */
  class Nsqlookupd {
    const DB: RegistrationDB
    var peers: map<string, Option<Info>>

    ghost function State(): World
      reads this, DB
    {
      World(DB.registrationMap, peers)
    }

    constructor ()
      ensures fresh(DB) && State() == World(map[], map[])
    {
      DB := new RegistrationDB();
      peers := map[];
    }

    method Connect(addr: string)
      requires addr !in peers
      modifies this
      ensures State() == old(State()).(peers := old(peers)[addr := None])
    {
      peers := peers[addr := None];
    }

    method IDENTIFY(addr: string, body: Option<Info>) returns (r: Outcome)
      requires addr in peers
      modifies this, DB
      ensures (State(), r) == Executed(old(State()), addr, Identify(body))
    {
      if peers[addr].Some? {
        return Invalid;
      }
      if body.None? || body.value.BroadcastAddress == "" || body.value.TCPPort == 0 || body.value.HTTPPort == 0
         || body.value.Version == "" {
        return BadBody;
      }
      peers := peers[addr := body];
      var _ := DB.AddProducer(CLIENT, Producer(addr, body.value));
      r := Outcome.Ok;
    }

    method REGISTER(addr: string, params: seq<string>) returns (r: Outcome)
      requires addr in peers
      modifies DB
      ensures (State(), r) == Executed(old(State()), addr, Register(params))
    {
      if peers[addr].None? {
        return Invalid;
      }
      r := CheckTopicChan(params);
      if r != Outcome.Ok {
        return;
      }
      var topic, channel, p := params[0], ChannelOf(params), Producer(addr, peers[addr].value);
      if channel != "" {
        var _ := DB.AddProducer(Chan(topic, channel), p);
      }
      var _ := DB.AddProducer(Topic(topic), p);
    }

    method UNREGISTER(addr: string, params: seq<string>) returns (r: Outcome)
      requires addr in peers
      modifies DB
      ensures (State(), r) == Executed(old(State()), addr, Unregister(params))
    {
      if peers[addr].None? {
        return Invalid;
      }
      r := CheckTopicChan(params);
      if r != Outcome.Ok {
        return;
      }
      var topic, channel := params[0], ChannelOf(params);
      if channel != "" {
        RemoveAndTrim(Chan(topic, channel), addr, channel);
      } else {
        ghost var t := DB.registrationMap;
        var registrations := DB.FindRegistrations("channel", topic, "*");
        DB.RemoveProducerFrom(registrations, addr);
        UnlistedOneMore(t, Members(registrations), Topic(topic), addr);
        RemoveAndTrim(Topic(topic), addr, topic);
      }
    }

    method RemoveAndTrim(k: Registration, addr: string, name: string)
      modifies DB
      ensures DB.registrationMap == Trimmed(Unlisted(old(DB.registrationMap), {k}, addr), k, name)
    {
      var removed, left := DB.RemoveProducer(k, addr);
      if left == 0 && IsEphemeral(name) {
        DB.RemoveRegistration(k);
      }
    }

    method Exec(addr: string, c: Command) returns (r: Outcome)
      requires addr in peers
      modifies this, DB
      ensures (State(), r) == Executed(old(State()), addr, c)
    {
      match c
      case Ping => r := Outcome.Ok;
      case Identify(body) => r := IDENTIFY(addr, body);
      case Register(params) => r := REGISTER(addr, params);
      case Unregister(params) => r := UNREGISTER(addr, params);
      case Unknown => r := Invalid;
    }

    /** What the I/O loop does when a connection ends. */
    method Close(addr: string)
      requires addr in peers
      modifies this, DB
      ensures State() == Closed(old(State()), addr)
    {
      if peers[addr].Some? {
        var registrations := DB.LookupRegistrations(addr);
        DB.RemoveProducerFrom(registrations, addr);
      }
      peers := peers - {addr};
    }

    /** One round of the I/O loop: an error ends the connection. */
    method Handle(addr: string, c: Command) returns (r: Outcome)
      requires addr in peers
      modifies this, DB
      ensures (State(), r) == Handled(old(State()), addr, c)
    {
      r := Exec(addr, c);
      if r != Outcome.Ok {
        Close(addr);
      }
    }

    method DoCreateTopic(topic: Option<string>) returns (r: Outcome)
      modifies DB
      ensures (DB.registrationMap, r) == Served(old(DB.registrationMap), CreateTopic(topic))
    {
      if topic.None? {
        return MissingArgument;
      }
      if !ValidName(topic.value) {
        return BadTopic;
      }
      DB.AddRegistration(Topic(topic.value));
      r := Outcome.Ok;
    }

    method DoDeleteTopic(topic: Option<string>) returns (r: Outcome)
      modifies DB
      ensures (DB.registrationMap, r) == Served(old(DB.registrationMap), DeleteTopic(topic))
    {
      if topic.None? {
        return MissingArgument;
      }
      ghost var t := DB.registrationMap;
      var registrations := DB.FindRegistrations("channel", topic.value, "*");
      DB.RemoveRegistrations(registrations);
      registrations := DB.FindRegistrations("topic", topic.value, "");
      DB.RemoveRegistrations(registrations);
      assert Matching(t - Matching(t, "channel", topic.value, "*"), "topic", topic.value, "")
            == Matching(t, "topic", topic.value, "");
      r := Outcome.Ok;
    }

    method DoCreateChannel(topic: Option<string>, channel: Option<string>) returns (r: Outcome)
      modifies DB
      ensures (DB.registrationMap, r) == Served(old(DB.registrationMap), CreateChannel(topic, channel))
    {
      r := CheckTopicChannelArgs(topic, channel);
      if r != Outcome.Ok {
        return;
      }
      DB.AddRegistration(Chan(topic.value, channel.value));
      DB.AddRegistration(Topic(topic.value));
    }

    method DoDeleteChannel(topic: Option<string>, channel: Option<string>) returns (r: Outcome)
      modifies DB
      ensures (DB.registrationMap, r) == Served(old(DB.registrationMap), DeleteChannel(topic, channel))
    {
      r := CheckTopicChannelArgs(topic, channel);
      if r != Outcome.Ok {
        return;
      }
      var registrations := DB.FindRegistrations("channel", topic.value, channel.value);
      if |registrations| == 0 {
        assert Matching(DB.registrationMap, "channel", topic.value, channel.value) == {};
        return NotFound;
      }
      assert registrations[0] in Members(registrations);
      DB.RemoveRegistrations(registrations);
    }
  }
}
