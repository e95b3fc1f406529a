/**
 The lookup daemon's registry as a value: who is listed under which registration, what each
 command and request makes of it, and what stays true over every run of them.
 */
module RegistrySpec {
  import opened Wrappers

  datatype Registration = Registration(Category: string, Key: string, SubKey: string)

  /** What a peer says about itself when it identifies; its id is its connection's remote address. */
  datatype Info = Info(Hostname: string, BroadcastAddress: string, TCPPort: int, HTTPPort: int, Version: string)

  datatype Producer = Producer(id: string, info: Info)

  type Table = map<Registration, map<string, Producer>>

  /** `peers` has the open connections by remote address, and who of them identified. */
  datatype World = World(table: Table, peers: map<string, Option<Info>>)

  const CLIENT := Registration("client", "", "")

  function Topic(topic: string): Registration {
    Registration("topic", topic, "")
  }

  function Chan(topic: string, channel: string): Registration {
    Registration("channel", topic, channel)
  }

  // ---- Names ----

  const EPHEMERAL := "#ephemeral"

  predicate IsNameChar(c: char) {
    c == '.' || 'a' <= c <= 'z' || 'A' <= c <= 'Z' || '0' <= c <= '9' || c == '_' || c == '-'
  }

  predicate IsEphemeral(name: string) {
    |name| >= |EPHEMERAL| && name[|name| - |EPHEMERAL|..] == EPHEMERAL
  }

  function Stem(name: string): string {
    if IsEphemeral(name) then name[..|name| - |EPHEMERAL|] else name
  }

  predicate ValidName(name: string) {
    1 <= |name| <= 64 && |Stem(name)| >= 1 && forall c | c in Stem(name) :: IsNameChar(c)
  }

  // ---- Changes of the table ----

  predicate IsMatch(k: Registration, category: string, key: string, subkey: string) {
    && k.Category == category
    && (key == "*" || k.Key == key)
    && (subkey == "*" || k.SubKey == subkey)
  }

  /** A producer is listed under a registration. */
  predicate ListedAt(t: Table, k: Registration, id: string) {
    k in t && id in t[k]
  }

  /** The registrations in the table that match. */
  ghost function Matching(t: Table, category: string, key: string, subkey: string): set<Registration> {
    set k | k in t && IsMatch(k, category, key, subkey)
  }

  function Opened(t: Table, k: Registration): Table {
    if k in t then t else t[k := map[]]
  }

  /** A producer already listed stays as it is. */
  function Listed(t: Table, k: Registration, p: Producer): Table {
    var o := Opened(t, k);
    if p.id in o[k] then o else o[k := o[k][p.id := p]]
  }

  function Unlisted(t: Table, ks: set<Registration>, id: string): Table {
    map k | k in t :: if k in ks then t[k] - {id} else t[k]
  }

  /** The registrations a producer is listed under. */
  ghost function ListedUnder(t: Table, id: string): set<Registration> {
    set k | k in t && ListedAt(t, k, id)
  }

  // ---- Commands and requests ----

  datatype Outcome = Ok | Invalid | BadBody | BadTopic | BadChannel | MissingArgument | NotFound

  datatype Command =
    | Ping
    | Identify(body: Option<Info>) // None if the body could not be read or decoded
    | Register(params: seq<string>)
    | Unregister(params: seq<string>)
    | Unknown

  function ChannelOf(params: seq<string>): string {
    if |params| >= 2 then params[1] else ""
  }

  /** What is wrong with the parameters TOPIC [CHANNEL]. */
  function CheckTopicChan(params: seq<string>): Outcome {
    if params == [] then Invalid
    else if !ValidName(params[0]) then BadTopic
    else if ChannelOf(params) != "" && !ValidName(ChannelOf(params)) then BadChannel
    else Ok
  }

  predicate Complete(info: Info) {
    info.BroadcastAddress != "" && info.TCPPort != 0 && info.HTTPPort != 0 && info.Version != ""
  }

  function Registered(t: Table, p: Producer, topic: string, channel: string): Table {
    Listed(if channel != "" then Listed(t, Chan(topic, channel), p) else t, Topic(topic), p)
  }

  /** An ephemeral registration goes with its last producer. */
  function Trimmed(t: Table, k: Registration, name: string): Table {
    if IsEphemeral(name) && (k !in t || t[k] == map[]) then t - {k} else t
  }

  ghost function Unregistered(t: Table, id: string, topic: string, channel: string): Table {
    if channel != "" then Trimmed(Unlisted(t, {Chan(topic, channel)}, id), Chan(topic, channel), channel)
    else Trimmed(Unlisted(t, Matching(t, "channel", topic, "*") + {Topic(topic)}, id), Topic(topic), topic)
  }

  ghost function Executed(w: World, addr: string, c: Command): (World, Outcome)
    requires addr in w.peers
  {
    var peer := w.peers[addr];
    match c
    case Ping => (w, Ok)
    case Identify(body) =>
      if peer.Some? then (w, Invalid)
      else if body.None? || !Complete(body.value) then (w, BadBody)
      else (World(Listed(w.table, CLIENT, Producer(addr, body.value)), w.peers[addr := body]), Ok)
    case Register(params) =>
      if peer.None? then (w, Invalid)
      else if CheckTopicChan(params) != Ok then (w, CheckTopicChan(params))
      else (w.(table := Registered(w.table, Producer(addr, peer.value), params[0], ChannelOf(params))), Ok)
    case Unregister(params) =>
      if peer.None? then (w, Invalid)
      else if CheckTopicChan(params) != Ok then (w, CheckTopicChan(params))
      else (w.(table := Unregistered(w.table, addr, params[0], ChannelOf(params))), Ok)
    case Unknown => (w, Invalid)
  }

  /** A connection ends: its peer is taken off every list. */
  ghost function Closed(w: World, addr: string): World
    requires addr in w.peers
  {
    var t := if w.peers[addr].Some? then Unlisted(w.table, ListedUnder(w.table, addr), addr) else w.table;
    World(t, w.peers - {addr})
  }

  /** Every error of a command is fatal to its connection. */
  ghost function Handled(w: World, addr: string, c: Command): (World, Outcome)
    requires addr in w.peers
  {
    var (v, r) := Executed(w, addr, c);
    if r == Ok then (v, Ok) else (Closed(v, addr), r)
  }

  datatype Request =
    | CreateTopic(topic: Option<string>)
    | DeleteTopic(topic: Option<string>)
    | CreateChannel(topic: Option<string>, channel: Option<string>)
    | DeleteChannel(topic: Option<string>, channel: Option<string>)

  function CheckTopicChannelArgs(topic: Option<string>, channel: Option<string>): Outcome {
    if topic.None? then MissingArgument
    else if !ValidName(topic.value) then BadTopic
    else if channel.None? then MissingArgument
    else if !ValidName(channel.value) then BadChannel
    else Ok
  }

  ghost function Served(t: Table, q: Request): (Table, Outcome) {
    match q
    case CreateTopic(topic) =>
      if topic.None? then (t, MissingArgument)
      else if !ValidName(topic.value) then (t, BadTopic)
      else (Opened(t, Topic(topic.value)), Ok)
    case DeleteTopic(topic) =>
      // the name is not checked, so "*" deletes every topic
      if topic.None? then (t, MissingArgument)
      else (t - Matching(t, "channel", topic.value, "*") - Matching(t, "topic", topic.value, ""), Ok)
    case CreateChannel(topic, channel) =>
      var r := CheckTopicChannelArgs(topic, channel);
      if r != Ok then (t, r) else (Opened(Opened(t, Chan(topic.value, channel.value)), Topic(topic.value)), Ok)
    case DeleteChannel(topic, channel) =>
      var r := CheckTopicChannelArgs(topic, channel);
      if r != Ok then (t, r)
      else
        var ks := Matching(t, "channel", topic.value, channel.value);
        if ks == {} then (t, NotFound) else (t - ks, Ok)
  }

  datatype Event =
    | Connect(addr: string)
    | Execute(addr: string, c: Command)
    | Hangup(addr: string)
    | Http(q: Request)

  /** Remote addresses of open connections are unique; events of a closed one do not happen. */
  ghost predicate Possible(w: World, e: Event) {
    match e
    case Connect(addr) => addr !in w.peers
    case Execute(addr, _) => addr in w.peers
    case Hangup(addr) => addr in w.peers
    case Http(_) => true
  }

  ghost function Next(w: World, e: Event): World
    requires Possible(w, e)
  {
    match e
    case Connect(addr) => w.(peers := w.peers[addr := None])
    case Execute(addr, c) => Handled(w, addr, c).0
    case Hangup(addr) => Closed(w, addr)
    case Http(q) => w.(table := Served(w.table, q).0)
  }

  // ---- What stays true ----

  /** Producers are filed under their own id. */
  ghost predicate Keyed(t: Table) {
    forall k, id | ListedAt(t, k, id) :: t[k][id].id == id
  }

  /** Whoever is listed has an open connection that identified as what is listed. */
  ghost predicate OnlyOpen(w: World) {
    forall k, id | ListedAt(w.table, k, id) :: id in w.peers && w.peers[id] == Some(w.table[k][id].info)
  }

  /** A producer of a channel is a producer of its topic. */
  ghost predicate ChannelsWithinTopics(t: Table) {
    forall k, id | ListedAt(t, k, id) && k.Category == "channel" :: ListedAt(t, Topic(k.Key), id)
  }

  /** Everyone who identified is listed as a client. */
  ghost predicate ClientsListed(w: World) {
    forall id | id in w.peers && w.peers[id].Some? :: ListedAt(w.table, CLIENT, id)
  }

  /** Registrations are the client list, topics, and channels; no name is a wildcard. */
  predicate WellFormed(k: Registration) {
    || k == CLIENT
    || (k.Category == "topic" && ValidName(k.Key) && k.SubKey == "")
    || (k.Category == "channel" && ValidName(k.Key) && ValidName(k.SubKey))
  }

  ghost predicate Consistent(w: World) {
    && Keyed(w.table) && OnlyOpen(w) && ChannelsWithinTopics(w.table) && ClientsListed(w)
    && forall k | k in w.table :: WellFormed(k)
  }

  lemma NoWildcard(name: string)
    requires ValidName(name)
    ensures name != "*" && name != ""
  {
    if !IsEphemeral(name) {
      assert IsNameChar(name[0]);
    }
  }

  /** What is listed, and as what, after listing `p` under `k`. */
  lemma ListedAfterListing(t: Table, k: Registration, p: Producer)
    ensures Listed(t, k, p).Keys == t.Keys + {k}
    ensures forall x, id :: ListedAt(Listed(t, k, p), x, id) <==> ListedAt(t, x, id) || (x == k && id == p.id)
    ensures forall x, id | ListedAt(Listed(t, k, p), x, id) ::
              Listed(t, k, p)[x][id] == if ListedAt(t, x, id) then t[x][id] else p
  {
  }

  lemma RegisteredConsistent(w: World, p: Producer, topic: string, channel: string)
    requires Consistent(w) && p.id in w.peers && w.peers[p.id] == Some(p.info)
    requires ValidName(topic) && (channel == "" || ValidName(channel))
    ensures Consistent(w.(table := Registered(w.table, p, topic, channel)))
  {
    var t := if channel != "" then Listed(w.table, Chan(topic, channel), p) else w.table;
    ListedAfterListing(w.table, Chan(topic, channel), p);
    ListedAfterListing(t, Topic(topic), p);
  }

  lemma IdentifiedConsistent(w: World, addr: string, info: Info)
    requires Consistent(w) && addr in w.peers && w.peers[addr].None?
    ensures Consistent(World(Listed(w.table, CLIENT, Producer(addr, info)), w.peers[addr := Some(info)]))
  {
    ListedAfterListing(w.table, CLIENT, Producer(addr, info));
  }

  /** `u` is `t` without some registrations and listings: what is left is as it was. */
  ghost predicate Reduces(t: Table, u: Table) {
    && u.Keys <= t.Keys
    && forall k, id | ListedAt(u, k, id) :: ListedAt(t, k, id) && u[k][id] == t[k][id]
  }

  lemma ReducedConsistent(w: World, u: Table)
    requires Consistent(w) && Reduces(w.table, u)
    requires forall k, id | ListedAt(u, k, id) && k.Category == "channel" :: ListedAt(u, Topic(k.Key), id)
    requires forall id | ListedAt(w.table, CLIENT, id) :: ListedAt(u, CLIENT, id)
    ensures Consistent(w.(table := u))
  {
  }

  lemma ListedAfterUnlisting(t: Table, ks: set<Registration>, id: string)
    ensures Reduces(t, Unlisted(t, ks, id)) && Unlisted(t, ks, id).Keys == t.Keys
    ensures forall k, x :: ListedAt(Unlisted(t, ks, id), k, x) <==> ListedAt(t, k, x) && !(k in ks && x == id)
  {
  }

  /** Only a registration without producers is trimmed. */
  lemma ListedAfterTrimming(t: Table, k: Registration, name: string)
    ensures Reduces(t, Trimmed(t, k, name))
    ensures forall x, id :: ListedAt(Trimmed(t, k, name), x, id) <==> ListedAt(t, x, id)
  {
  }

  lemma UnregisteredChannelConsistent(w: World, id: string, topic: string, channel: string)
    requires Consistent(w) && ValidName(topic) && ValidName(channel)
    ensures Consistent(w.(table := Unregistered(w.table, id, topic, channel)))
  {
    NoWildcard(channel);
    var k := Chan(topic, channel);
    ListedAfterUnlisting(w.table, {k}, id);
    ListedAfterTrimming(Unlisted(w.table, {k}, id), k, channel);
    ReducedConsistent(w, Unregistered(w.table, id, topic, channel));
  }

  lemma UnregisteredTopicConsistent(w: World, id: string, topic: string)
    requires Consistent(w) && ValidName(topic)
    ensures Consistent(w.(table := Unregistered(w.table, id, topic, "")))
  {
    NoWildcard(topic);
    var ks := Matching(w.table, "channel", topic, "*") + {Topic(topic)};
    var t := Unlisted(w.table, ks, id);
    ListedAfterUnlisting(w.table, ks, id);
    ListedAfterTrimming(t, Topic(topic), topic);
    ReducedConsistent(w, Unregistered(w.table, id, topic, ""));
  }

  lemma ExecutedConsistent(w: World, addr: string, c: Command)
    requires Consistent(w) && addr in w.peers
    ensures Consistent(Executed(w, addr, c).0)
    ensures addr in Executed(w, addr, c).0.peers
  {
    var peer := w.peers[addr];
    match c
    case Identify(body) =>
      if peer.None? && body.Some? {
        IdentifiedConsistent(w, addr, body.value);
      }
    case Register(params) =>
      if peer.Some? && CheckTopicChan(params) == Ok {
        RegisteredConsistent(w, Producer(addr, peer.value), params[0], ChannelOf(params));
      }
    case Unregister(params) =>
      if peer.Some? && CheckTopicChan(params) == Ok {
        if ChannelOf(params) == "" {
          UnregisteredTopicConsistent(w, addr, params[0]);
        } else {
          UnregisteredChannelConsistent(w, addr, params[0], ChannelOf(params));
        }
      }
    case _ =>
  }

  /** After a connection ended its id is listed nowhere, and nobody else is affected. */
  lemma ClosedConsistent(w: World, addr: string)
    requires Consistent(w) && addr in w.peers
    ensures var v := Closed(w, addr);
            && Consistent(v) && addr !in v.peers && ListedUnder(v.table, addr) == {}
            && forall k, id | id != addr :: ListedAt(v.table, k, id) <==> ListedAt(w.table, k, id)
  {
    ListedAfterUnlisting(w.table, ListedUnder(w.table, addr), addr);
    var v := Closed(w, addr);
    forall k, id ensures ListedAt(v.table, k, id) <==> ListedAt(w.table, k, id) && id != addr {
      if ListedAt(w.table, k, addr) {
        assert k in ListedUnder(w.table, addr);
      }
    }
  }

  lemma OpenedConsistent(w: World, k: Registration)
    requires Consistent(w) && WellFormed(k)
    ensures Consistent(w.(table := Opened(w.table, k)))
  {
    assert forall x, id :: ListedAt(Opened(w.table, k), x, id) <==> ListedAt(w.table, x, id);
  }

  lemma DroppedConsistent(w: World, ks: set<Registration>)
    requires Consistent(w) && CLIENT !in ks
    requires forall k | k in w.table && k.Category == "channel" && Topic(k.Key) in ks :: k in ks
    ensures Consistent(w.(table := w.table - ks))
  {
    assert forall x, id :: ListedAt(w.table - ks, x, id) <==> ListedAt(w.table, x, id) && x !in ks;
    ReducedConsistent(w, w.table - ks);
  }

  lemma ServedConsistent(w: World, q: Request)
    requires Consistent(w)
    ensures Consistent(w.(table := Served(w.table, q).0))
  {
    match q
    case CreateTopic(topic) =>
      if topic.Some? && ValidName(topic.value) {
        OpenedConsistent(w, Topic(topic.value));
      }
    case DeleteTopic(topic) =>
      if topic.Some? {
        var cs, ts := Matching(w.table, "channel", topic.value, "*"), Matching(w.table, "topic", topic.value, "");
        assert w.table - cs - ts == w.table - (cs + ts);
        DroppedConsistent(w, cs + ts);
      }
    case CreateChannel(topic, channel) =>
      if CheckTopicChannelArgs(topic, channel) == Ok {
        var k := Chan(topic.value, channel.value);
        OpenedConsistent(w, k);
        OpenedConsistent(w.(table := Opened(w.table, k)), Topic(topic.value));
      }
    case DeleteChannel(topic, channel) =>
      if CheckTopicChannelArgs(topic, channel) == Ok {
        DroppedConsistent(w, Matching(w.table, "channel", topic.value, channel.value));
      }
  }

  lemma StepConsistent(w: World, e: Event)
    requires Consistent(w) && Possible(w, e)
    ensures Consistent(Next(w, e))
  {
    match e
    case Connect(addr) =>
    case Execute(addr, c) =>
      ExecutedConsistent(w, addr, c);
      var (v, r) := Executed(w, addr, c);
      ClosedConsistent(v, addr);
    case Hangup(addr) => ClosedConsistent(w, addr);
    case Http(q) => ServedConsistent(w, q);
  }

  ghost predicate IsRun(ws: seq<World>, es: seq<Event>) {
    && |ws| == |es| + 1
    && forall i | 0 <= i < |es| :: Possible(ws[i], es[i]) && ws[i + 1] == Next(ws[i], es[i])
  }

  /** The registry is consistent in every state of every run; nobody without a connection is listed. */
  lemma {:induction false} RunConsistent(ws: seq<World>, es: seq<Event>, i: nat)
    requires IsRun(ws, es) && ws[0] == World(map[], map[]) && i < |ws|
    ensures Consistent(ws[i])
    ensures forall id | id !in ws[i].peers :: ListedUnder(ws[i].table, id) == {}
    decreases i
  {
    if i > 0 {
      RunConsistent(ws, es, i - 1);
      StepConsistent(ws[i - 1], es[i - 1]);
    }
  }

  /** The name of a topic to delete is not checked: "*" deletes all topics and channels. */
  lemma DeletingWildcard(w: World)
    requires Consistent(w)
    ensures Served(w.table, DeleteTopic(Some("*"))).0.Keys == w.table.Keys * {CLIENT}
  {
    var t := Served(w.table, DeleteTopic(Some("*"))).0;
    forall k | k in w.table && k != CLIENT ensures k !in t {
      assert WellFormed(k);
    }
  }

  /** A topic's registrations: its own and those of its channels. */
  ghost function OfTopic(t: Table, topic: string): set<Registration> {
    set k | k in t && (k.Category == "topic" || k.Category == "channel") && k.Key == topic
  }

  /**
   Deleting a topic deletes just that topic's registrations, if and only if its name is not the
   wildcard, or there is nothing to delete.
   */
  lemma DeletionStaysWithinTopicIff(w: World, topic: string)
    requires Consistent(w)
    ensures Served(w.table, DeleteTopic(Some(topic))).0 == w.table - OfTopic(w.table, topic)
            <==> topic != "*" || w.table.Keys <= {CLIENT}
  {
    var t := Served(w.table, DeleteTopic(Some(topic))).0;
    if topic == "*" {
      DeletingWildcard(w);
      forall k | k in w.table ensures k !in OfTopic(w.table, topic) {
        assert WellFormed(k);
        if k.Key == "*" && k != CLIENT {
          NoWildcard(k.Key);
        }
      }
      assert (w.table - OfTopic(w.table, topic)).Keys == w.table.Keys;
    } else {
      forall k | k in w.table ensures k in t <==> k !in OfTopic(w.table, topic) {
        assert WellFormed(k);
      }
    }
  }

  // ---- Registrations without a producer ----

  ghost predicate TopicsOpen(t: Table) {
    forall k | k in t && k.Category == "channel" :: Topic(k.Key) in t
  }

  ghost predicate HasChannels(t: Table, topic: string) {
    exists k :: k in t && k.Category == "channel" && k.Key == topic
  }

  /** The last producer of an ephemeral topic unregisters it while one of its channels is registered. */
  ghost predicate Orphans(w: World, e: Event) {
    && e.Execute? && e.addr in w.peers && w.peers[e.addr].Some?
    && e.c.Unregister? && CheckTopicChan(e.c.params) == Ok && ChannelOf(e.c.params) == ""
    && LastOfEphemeral(w.table, e.c.params[0], e.addr) && HasChannels(w.table, e.c.params[0])
  }

  predicate LastOfEphemeral(t: Table, topic: string, id: string) {
    IsEphemeral(topic) && Topic(topic) in t && t[Topic(topic)].Keys <= {id}
  }

  lemma OnlyKeysMatter(t: Table, u: Table)
    requires t.Keys == u.Keys
    ensures TopicsOpen(t) <==> TopicsOpen(u)
  {
    assert forall k :: k in t <==> k in u;
  }

  lemma NothingLeft<V>(m: map<string, V>, id: string)
    ensures m - {id} == map[] <==> m.Keys <= {id}
  {
    if m.Keys <= {id} {
      assert forall x :: x !in m - {id};
    } else {
      var x :| x in m && x != id;
      assert x in m - {id};
    }
  }

  lemma TopicUnregistrationOrphans(t: Table, id: string, topic: string)
    requires TopicsOpen(t)
    ensures TopicsOpen(Unregistered(t, id, topic, "")) <==> !(LastOfEphemeral(t, topic, id) && HasChannels(t, topic))
  {
    var k, u := Topic(topic), Unlisted(t, Matching(t, "channel", topic, "*") + {Topic(topic)}, id);
    OnlyKeysMatter(t, u);
    if k in t {
      assert u[k] == t[k] - {id};
      NothingLeft(t[k], id);
    }
    if LastOfEphemeral(t, topic, id) && HasChannels(t, topic) {
      var c :| c in t && c.Category == "channel" && c.Key == topic;
      assert c in u - {k} && Topic(c.Key) !in u - {k};
    }
  }

  lemma ChannelUnregistrationKeeps(t: Table, id: string, topic: string, channel: string)
    requires TopicsOpen(t) && channel != ""
    ensures TopicsOpen(Unregistered(t, id, topic, channel))
  {
    OnlyKeysMatter(t, Unlisted(t, {Chan(topic, channel)}, id));
  }

  /** A channel's topic is registered, and only the unregistration of an ephemeral topic can change that. */
  lemma OrphanedOnlySo(w: World, e: Event)
    requires Consistent(w) && TopicsOpen(w.table) && Possible(w, e)
    ensures TopicsOpen(Next(w, e).table) <==> !Orphans(w, e)
  {
    match e
    case Execute(addr, c) => ExecutionOrphans(w, addr, c);
    case Http(q) => RequestKeepsTopics(w, q);
    case Hangup(addr) => OnlyKeysMatter(w.table, Closed(w, addr).table);
    case _ =>
  }

  lemma ExecutionOrphans(w: World, addr: string, c: Command)
    requires TopicsOpen(w.table) && addr in w.peers
    ensures TopicsOpen(Handled(w, addr, c).0.table) <==> !Orphans(w, Execute(addr, c))
  {
    var (v, r) := Executed(w, addr, c);
    if r != Ok {
      OnlyKeysMatter(w.table, Closed(v, addr).table);
    } else if c.Unregister? {
      if ChannelOf(c.params) == "" {
        TopicUnregistrationOrphans(w.table, addr, c.params[0]);
      } else {
        ChannelUnregistrationKeeps(w.table, addr, c.params[0], ChannelOf(c.params));
      }
    }
  }

  lemma RequestKeepsTopics(w: World, q: Request)
    requires Consistent(w) && TopicsOpen(w.table)
    ensures TopicsOpen(Served(w.table, q).0)
  {
  }

  /** The state after the events of a run. */
  ghost function After(w: World, es: seq<Event>): World
    decreases |es|
  {
    if es == [] || !Possible(w, es[0]) then w else After(Next(w, es[0]), es[1..])
  }

  lemma AfterThree(w: World, a: Event, b: Event, c: Event, w1: World, w2: World)
    requires Possible(w, a) && w1 == Next(w, a) && Possible(w1, b) && w2 == Next(w1, b) && Possible(w2, c)
    ensures After(w, [a, b, c]) == Next(w2, c)
  {
    var es := [a, b, c];
    assert es[1..] == [b, c] && [b, c][1..] == [c] && [c][1..] == [];
    assert After(w2, [c]) == After(Next(w2, c), []) == Next(w2, c);
    assert After(w1, [b, c]) == After(w2, [c]);
  }

  /** A world of one peer that has identified. */
  function OnePeer(addr: string, info: Info): World {
    World(map[CLIENT := map[addr := Producer(addr, info)]], map[addr := Some(info)])
  }

  lemma OnePeerReached(addr: string, info: Info)
    requires Complete(info)
    ensures Next(World(map[], map[addr := None]), Execute(addr, Identify(Some(info)))) == OnePeer(addr, info)
  {
    assert Listed(map[], CLIENT, Producer(addr, info)) == map[CLIENT := map[addr := Producer(addr, info)]];
  }

  lemma OrphanFromOnePeer(addr: string, info: Info, topic: string, channel: string)
    requires ValidName(topic) && IsEphemeral(topic) && ValidName(channel)
    ensures var last := Execute(addr, Unregister([topic]));
            var w := Next(OnePeer(addr, info), Execute(addr, Register([topic, channel])));
            && TopicsOpen(w.table) && Orphans(w, last)
            && Chan(topic, channel) in Next(w, last).table && Topic(topic) !in Next(w, last).table
  {
    NoWildcard(channel);
    var p, table := Producer(addr, info), OnePeer(addr, info).table;
    ListedAfterListing(table, Chan(topic, channel), p);
    ListedAfterListing(Listed(table, Chan(topic, channel), p), Topic(topic), p);
    var w := Next(OnePeer(addr, info), Execute(addr, Register([topic, channel])));
    assert w.table[Topic(topic)] == map[addr := p];
    assert Chan(topic, channel) in w.table;
    NothingLeft(w.table[Topic(topic)], addr);
  }

  /** It does happen: a peer that registers a channel of an ephemeral topic and then unregisters the topic. */
  lemma OrphanReached(addr: string, info: Info, topic: string, channel: string)
    requires Complete(info) && ValidName(topic) && IsEphemeral(topic) && ValidName(channel)
    ensures var es := [Connect(addr), Execute(addr, Identify(Some(info))), Execute(addr, Register([topic, channel]))];
            var w, last := After(World(map[], map[]), es), Execute(addr, Unregister([topic]));
            && Possible(w, last) && TopicsOpen(w.table) && Orphans(w, last)
            && Chan(topic, channel) in Next(w, last).table && Topic(topic) !in Next(w, last).table
  {
    OnePeerReached(addr, info);
    OrphanFromOnePeer(addr, info, topic, channel);
    AfterThree(World(map[], map[]), Connect(addr), Execute(addr, Identify(Some(info))),
               Execute(addr, Register([topic, channel])), World(map[], map[addr := None]), OnePeer(addr, info));
  }
}
