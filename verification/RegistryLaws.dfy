/**
 What each command and request means for who is listed where, told one registration and one producer at a
 time. Registrations are written out here, and names are what their regular expression accepts.
 */
module RegistryLaws {
  import opened RegistrySpec
  import opened Wrappers

  // ---- Names ----

  /** `[.a-zA-Z0-9_-]`, by its ASCII codes. */
  predicate InClass(c: char) {
    var n := c as int;
    n in {45, 46, 95} || 48 <= n <= 57 || 65 <= n <= 90 || 97 <= n <= 122
  }

  predicate AllInClass(s: string) {
    forall i | 0 <= i < |s| :: InClass(s[i])
  }

  lemma NameChars(c: char)
    ensures IsNameChar(c) <==> InClass(c)
  {
  }

  lemma AllNameChars(s: string)
    ensures (forall c | c in s :: IsNameChar(c)) <==> AllInClass(s)
  {
    forall i | 0 <= i < |s| ensures IsNameChar(s[i]) <==> InClass(s[i]) {
      NameChars(s[i]);
    }
  }

  ghost predicate Splits(name: string, stem: string, suffix: string) {
    name == stem + suffix && (suffix == "" || suffix == "#ephemeral") && stem != "" && AllInClass(stem)
  }

  /** `^[.a-zA-Z0-9_-]+(#ephemeral)?$`, and a length from 1 to 64. */
  lemma ValidNameIff(name: string)
    ensures ValidName(name) <==> |name| <= 64 && exists stem, suffix :: Splits(name, stem, suffix)
  {
    AllNameChars(Stem(name));
    if ValidName(name) {
      var suffix := if IsEphemeral(name) then "#ephemeral" else "";
      assert name == Stem(name) + suffix && Splits(name, Stem(name), suffix);
    }
    forall stem, suffix | Splits(name, stem, suffix) && |name| <= 64 ensures ValidName(name) {
      StemIsValid(name, stem, suffix);
    }
  }

  lemma StemIsValid(name: string, stem: string, suffix: string)
    requires Splits(name, stem, suffix) && |name| <= 64
    ensures ValidName(name)
  {
    AllNameChars(stem);
    if suffix == "" {
      assert name == stem;
      assert |name| >= 10 ==> name[|name| - 10..][0] == name[|name| - 10] != '#';
    } else {
      assert name[|name| - 10..] == suffix && name[..|name| - 10] == stem;
    }
  }

  // ---- Changes of a table ----

  /** Just `p` came to be listed, under `ks`, unless it was; and `ks` are registered. */
  ghost predicate Gains(t: Table, u: Table, ks: set<Registration>, p: Producer) {
    && u.Keys == t.Keys + ks
    && (forall k, id :: ListedAt(u, k, id) <==> ListedAt(t, k, id) || (k in ks && id == p.id))
    && forall k, id | ListedAt(u, k, id) :: u[k][id] == if ListedAt(t, k, id) then t[k][id] else p
  }

  /** Just `id` was taken off the lists of `ks`, and the registrations `gone` were removed. */
  ghost predicate Loses(t: Table, u: Table, ks: set<Registration>, id: string, gone: set<Registration>) {
    && u.Keys == t.Keys - gone
    && (forall k, x :: ListedAt(u, k, x) <==> ListedAt(t, k, x) && !(k in ks && x == id))
    && forall k, x | ListedAt(u, k, x) :: u[k][x] == t[k][x]
  }

  /** Nobody but `id` is listed under `k`. */
  ghost predicate NobodyElse(t: Table, k: Registration, id: string) {
    forall x | ListedAt(t, k, x) :: x == id
  }

  // ---- Commands ----

  predicate NamesChannel(params: seq<string>) {
    |params| >= 2 && params[1] != ""
  }

  predicate Acceptable(params: seq<string>) {
    |params| >= 1 && ValidName(params[0]) && (NamesChannel(params) ==> ValidName(params[1]))
  }

  /** The answer to REGISTER and UNREGISTER. */
  ghost predicate Answers(identified: bool, params: seq<string>, r: Outcome) {
    && (r == Ok <==> identified && Acceptable(params))
    && (r == Invalid <==> !identified || params == [])
    && (r == BadTopic <==> identified && params != [] && !ValidName(params[0]))
    && r in {Ok, Invalid, BadTopic, BadChannel}
  }

  /** REGISTER lists the peer under the topic, and under the channel if one is named. */
  lemma RegisterMeans(w: World, addr: string, params: seq<string>)
    requires addr in w.peers
    ensures var (v, r) := Executed(w, addr, Register(params));
            && Answers(w.peers[addr].Some?, params, r) && v.peers == w.peers
            && (r != Ok ==> v == w)
            && (r == Ok ==>
                  var topic := Registration("topic", params[0], "");
                  var ks := if NamesChannel(params) then {topic, Registration("channel", params[0], params[1])}
                            else {topic};
                  Gains(w.table, v.table, ks, Producer(addr, w.peers[addr].value)))
  {
    var (v, r) := Executed(w, addr, Register(params));
    if r == Ok {
      var p, channel := Producer(addr, w.peers[addr].value), ChannelOf(params);
      var t := if channel != "" then Listed(w.table, Chan(params[0], channel), p) else w.table;
      ListedAfterListing(w.table, Chan(params[0], channel), p);
      ListedAfterListing(t, Topic(params[0]), p);
    }
  }

  /**
   UNREGISTER takes the peer off the channel named, or off the topic and all its channels. Only an ephemeral
   registration that nobody else is listed under goes, of the one that was named.
   */
  lemma UnregisterMeans(w: World, addr: string, params: seq<string>)
    requires addr in w.peers
    ensures var (v, r) := Executed(w, addr, Unregister(params));
            && Answers(w.peers[addr].Some?, params, r) && v.peers == w.peers
            && (r != Ok ==> v == w)
            && (r == Ok && NamesChannel(params) ==>
                  var k := Registration("channel", params[0], params[1]);
                  var gone := if IsEphemeral(params[1]) && NobodyElse(w.table, k, addr) then {k} else {};
                  Loses(w.table, v.table, {k}, addr, gone))
            && (r == Ok && !NamesChannel(params) ==>
                  var k := Registration("topic", params[0], "");
                  var ks := set x | x in w.table && (x == k || (x.Category == "channel" && x.Key == params[0]));
                  var gone := if IsEphemeral(params[0]) && NobodyElse(w.table, k, addr) then {k} else {};
                  Loses(w.table, v.table, ks, addr, gone))
  {
    var (v, r) := Executed(w, addr, Unregister(params));
    if r == Ok {
      if NamesChannel(params) {
        TrimmedLoses(w.table, {Chan(params[0], params[1])}, addr, Chan(params[0], params[1]), params[1]);
      } else {
        NoWildcard(params[0]);
        var ks := Matching(w.table, "channel", params[0], "*") + {Topic(params[0])};
        TrimmedLoses(w.table, ks, addr, Topic(params[0]), params[0]);
      }
    }
  }

  lemma TrimmedLoses(t: Table, ks: set<Registration>, id: string, k: Registration, name: string)
    requires k in ks
    ensures var gone := if IsEphemeral(name) && NobodyElse(t, k, id) then {k} else {};
            Loses(t, Trimmed(Unlisted(t, ks, id), k, name), ks, id, gone)
  {
    var u := Unlisted(t, ks, id);
    ListedAfterUnlisting(t, ks, id);
    if k in t {
      NothingLeft(t[k], id);
      assert NobodyElse(t, k, id) <==> t[k].Keys <= {id} by {
        assert forall x :: ListedAt(t, k, x) <==> x in t[k];
      }
      assert u[k] == t[k] - {id};
    }
  }

  /** IDENTIFY, once, with all of the required fields, lists the peer as a client. */
  lemma IdentifyMeans(w: World, addr: string, body: Option<Info>)
    requires addr in w.peers
    ensures var (v, r) := Executed(w, addr, Identify(body));
            && (r == Ok <==> && w.peers[addr].None? && body.Some? && body.value.BroadcastAddress != ""
                             && body.value.TCPPort != 0 && body.value.HTTPPort != 0 && body.value.Version != "")
            && (r != Ok ==> v == w && r == if w.peers[addr].Some? then Invalid else BadBody)
            && (r == Ok ==> && v.peers == w.peers[addr := body]
                            && Gains(w.table, v.table, {Registration("client", "", "")}, Producer(addr, body.value)))
  {
    if body.Some? {
      ListedAfterListing(w.table, CLIENT, Producer(addr, body.value));
    }
  }

  /** A connection that ends takes its peer off every list, and no registration with it. */
  lemma ClosedMeans(w: World, addr: string)
    requires Consistent(w) && addr in w.peers
    ensures var v := Closed(w, addr);
            v.peers == w.peers - {addr} && Loses(w.table, v.table, w.table.Keys, addr, {})
  {
    ListedAfterUnlisting(w.table, ListedUnder(w.table, addr), addr);
    ClosedConsistent(w, addr);
  }

  /** A command that is answered with an error ends the connection; any other leaves it open. */
  lemma HandledMeans(w: World, addr: string, c: Command)
    requires Consistent(w) && addr in w.peers
    ensures var (v, r) := Handled(w, addr, c);
            && r == Executed(w, addr, c).1
            && (r == Ok ==> v == Executed(w, addr, c).0 && addr in v.peers)
            && (r != Ok ==> v.peers == w.peers - {addr} && Loses(w.table, v.table, w.table.Keys, addr, {}))
            && (c.Ping? ==> r == Ok && v == w)
            && (c.Unknown? ==> r != Ok)
  {
    match c
    case Identify(body) => IdentifyMeans(w, addr, body);
    case Register(params) => RegisterMeans(w, addr, params);
    case Unregister(params) => UnregisterMeans(w, addr, params);
    case _ =>
    ClosedMeans(w, addr);
  }

  // ---- Requests ----

  /** Just the registrations `ks` were opened, with nobody listed. */
  ghost predicate Opens(t: Table, u: Table, ks: set<Registration>) {
    && u.Keys == t.Keys + ks
    && forall k | k in u :: u[k] == if k in t then t[k] else map[]
  }

  lemma CreateTopicMeans(t: Table, topic: Option<string>)
    ensures var (u, r) := Served(t, CreateTopic(topic));
            && r == (if topic.None? then MissingArgument else if !ValidName(topic.value) then BadTopic else Ok)
            && if r == Ok then Opens(t, u, {Registration("topic", topic.value, "")}) else u == t
  {
  }

  /** Creating a channel opens its topic as well. */
  lemma CreateChannelMeans(t: Table, topic: Option<string>, channel: Option<string>)
    ensures var (u, r) := Served(t, CreateChannel(topic, channel));
            && (r == Ok <==> topic.Some? && ValidName(topic.value) && channel.Some? && ValidName(channel.value))
            && (r == MissingArgument <==> topic.None? || (ValidName(topic.value) && channel.None?))
            && (r == BadTopic <==> topic.Some? && !ValidName(topic.value))
            && if r != Ok then u == t
               else Opens(t, u, {Registration("topic", topic.value, ""),
                                 Registration("channel", topic.value, channel.value)})
  {
  }

  /** Deleting a channel removes just that one, if it is there. */
  lemma DeleteChannelMeans(t: Table, topic: Option<string>, channel: Option<string>)
    ensures var (u, r) := Served(t, DeleteChannel(topic, channel));
            && (r == Ok || r == NotFound <==>
                  topic.Some? && ValidName(topic.value) && channel.Some? && ValidName(channel.value))
            && (r == Ok || r == NotFound ==>
                  var k := Registration("channel", topic.value, channel.value);
                  (r == Ok <==> k in t) && u == t - {k})
            && (r != Ok ==> u == t)
  {
    if topic.Some? && ValidName(topic.value) && channel.Some? && ValidName(channel.value) {
      NoWildcard(topic.value);
      NoWildcard(channel.value);
      var k, ks := Chan(topic.value, channel.value), Matching(t, "channel", topic.value, channel.value);
      assert forall x | x in ks :: x == k;
      assert k in t ==> k in ks;
      assert ks == if k in t then {k} else {};
      assert k !in t ==> t - {k} == t;
    }
  }

  /** Deleting a topic removes what `DeletionStaysWithinTopicIff` says; a missing name is an error. */
  lemma DeleteTopicMeans(w: World, topic: Option<string>)
    requires Consistent(w)
    ensures var (u, r) := Served(w.table, DeleteTopic(topic));
            && r == (if topic.None? then MissingArgument else Ok)
            && (topic.None? ==> u == w.table)
            && (topic.Some? ==>
                  u == w.table - set k | k in w.table && k != Registration("client", "", "")
                                         && (topic.value == "*" || k.Key == topic.value))
  {
    if topic.Some? {
      var u := Served(w.table, DeleteTopic(topic)).0;
      forall k | k in w.table ensures k in u <==> k == CLIENT || !(topic.value == "*" || k.Key == topic.value) {
        assert WellFormed(k);
      }
    }
  }
}
