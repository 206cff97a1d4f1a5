/**
 The subscription manager: who listens to which channel, indexed both ways.

 Every method is proved against the set of (client, channel) subscriptions and
 keeps the two indexes each other's converse.  Whether a send succeeds is given
 by an oracle.
 */
module PubSub {
  import opened Base
  import opened Relation
  import Resp

  /** A client is known by its socket. */
  datatype Client = Client(fd: int)
  type Subscriptions = set<(Client, string)>

  /** The subscriptions of one client to each of `channels`. */
  ghost function To(client: Client, channels: set<string>): Subscriptions {
    set ch | ch in channels :: (client, ch)
  }

  /** What one client listens to. */
  ghost function Of(subs: Subscriptions, client: Client): set<string> {
    set s | s in subs && s.0 == client :: s.1
  }

  /** Who listens to one channel. */
  ghost function On(subs: Subscriptions, channel: string): set<Client> {
    set s | s in subs && s.1 == channel :: s.0
  }

  datatype Notice = Notice(channel: string, count: int)

  /** Bytes on their way to a client. */
  datatype Packet = Packet(to: Client, bytes: string)

  function Packets(order: seq<Client>, bytes: string): seq<Packet> {
    seq(|order|, i requires 0 <= i < |order| => Packet(order[i], bytes))
  }

  class PubSubManager {
    var channels: map<string, set<Client>>
    var clientChannels: map<Client, set<string>>

    ghost predicate Valid()
      reads this
    {
      Converse(clientChannels, channels)
    }

    ghost function Subs(): Subscriptions
      reads this
    {
      Pairs(clientChannels)
    }

    constructor ()
      ensures Valid() && Subs() == {}
    {
      channels, clientChannels := map[], map[];
    }

    method SubscribeOne(client: Client, channel: string) returns (count: nat)
      requires Valid()
      modifies this
      ensures Valid()
      ensures Subs() == old(Subs()) + {(client, channel)}
      ensures count == |Of(Subs(), client)|
    {
      ConverseInsert(clientChannels, channels, client, channel);
      InsertPairs(clientChannels, client, channel);
      channels := Insert(channels, channel, client);
      clientChannels := Insert(clientChannels, client, channel);
      RowIs(clientChannels, client);
      count := |clientChannels[client]|;
    }

    /** Returns each channel with the client's number of subscriptions after it. */
    method Subscribe(client: Client, names: seq<string>) returns (results: seq<Notice>)
      requires Valid()
      modifies this
      ensures Valid()
      ensures Subs() == Joined(old(Subs()), client, names)
      ensures results == JoinNotices(old(Subs()), client, names)
    {
      results := [];
      ghost var before := Subs();
      for i := 0 to |names|
        invariant Valid()
        invariant Subs() == Joined(before, client, names[..i])
        invariant results == JoinNotices(before, client, names[..i])
      {
        assert names[..i + 1] == names[..i] + [names[i]];
        var count := SubscribeOne(client, names[i]);
        results := results + [Notice(names[i], count)];
      }
      assert names[..|names|] == names;
    }

    /** Consistent, except that the entry of `client` may have run empty. */
    ghost predicate ValidBut(client: Client)
      reads this
    {
      NoEmptyBut(clientChannels, client) && NoEmpty(channels) && ConversePairs(clientChannels, channels)
    }

    method UnsubscribeOne(client: Client, channel: string) returns (count: nat)
      requires ValidBut(client)
      modifies this
      ensures ValidBut(client)
      ensures Subs() == old(Subs()) - {(client, channel)}
      ensures count == |Of(Subs(), client)|
    {
      ConverseErase(clientChannels, channels, client, channel);
      channels := Remove(channels, channel, client);
      clientChannels := Erase(clientChannels, client, channel);
      RowIs(clientChannels, client);
      count := if client in clientChannels then |clientChannels[client]| else 0;
    }

    method LeaveEach(client: Client, targets: seq<string>) returns (results: seq<Notice>)
      requires Valid()
      modifies this
      ensures Valid()
      ensures Subs() == Left(old(Subs()), client, targets)
      ensures results == LeaveNotices(old(Subs()), client, targets)
    {
      ghost var before := Subs();
      results := [];
      for i := 0 to |targets|
        invariant ValidBut(client)
        invariant Subs() == Left(before, client, targets[..i])
        invariant results == LeaveNotices(before, client, targets[..i])
      {
        assert targets[..i + 1] == targets[..i] + [targets[i]];
        var count := UnsubscribeOne(client, targets[i]);
        results := results + [Notice(targets[i], count)];
      }
      assert targets[..|targets|] == targets;
      TidyPairs(clientChannels, client);
      clientChannels := Tidy(clientChannels, client);
    }

    /** With no channels named, leaves all of them, in the order of the index. */
    method Unsubscribe(client: Client, names: seq<string>) returns (results: seq<Notice>, ghost targets: seq<string>)
      requires Valid()
      modifies this
      ensures Valid()
      ensures if names != [] then targets == names else Enumerates(targets, old(Of(Subs(), client)))
      ensures Subs() == Left(old(Subs()), client, targets)
      ensures results == if targets == [] then [Notice("*", 0)] else LeaveNotices(old(Subs()), client, targets)
    {
      var toUnsub := names;
      if names == [] {
        if client in clientChannels {
          toUnsub := InOrder(clientChannels[client]);
        }
        RowIs(clientChannels, client);
        if toUnsub == [] {
          return [Notice("*", 0)], [];
        }
      }
      targets := toUnsub;
      results := LeaveEach(client, toUnsub);
    }

    /** Sends to every subscriber; those that cannot be reached are unsubscribed. */
    method Publish(channel: string, message: string, reachable: Client -> bool)
      returns (delivered: nat, sent: seq<Packet>, ghost order: seq<Client>)
      requires Valid()
      modifies this
      ensures Valid()
      ensures Subs() == Reached(old(Subs()), channel, reachable)
      ensures delivered == |On(Subs(), channel)|
      ensures Enumerates(order, old(On(Subs(), channel))) && sent == Packets(order, Resp.Push(channel, message))
    {
      ghost var before := Subs();
      if channel !in channels {
        NobodyOn(clientChannels, channels, channel);
        return 0, [], [];
      }
      var dead;
      var bytes := Resp.JoinArray(Resp.BulkStrings(["message", channel, message]));
      delivered, dead, sent, order := SendAll(channels[channel], bytes, reachable);
      ColumnIs(clientChannels, channels, channel);
      ReachedAre(before, channel, reachable, dead, delivered);
      Forget(channel, dead);
    }

    /** Takes clients that are gone off a channel, and the channel away if nobody is left. */
    method Forget(channel: string, dead: seq<Client>)
      requires Valid() && channel in channels
      modifies this
      ensures Valid() && Subs() == Lost(old(Subs()), channel, dead)
    {
      ghost var before := Subs();
      for i := 0 to |dead|
        invariant NoEmpty(clientChannels) && NoEmptyBut(channels, channel) && ConversePairs(clientChannels, channels)
        invariant channel in channels
        invariant Subs() == Lost(before, channel, dead[..i])
      {
        assert dead[..i + 1] == dead[..i] + [dead[i]];
        ErasePairs(channels, channel, dead[i]);
        RemovePairs(clientChannels, dead[i], channel);
        channels := Erase(channels, channel, dead[i]);
        clientChannels := Remove(clientChannels, dead[i], channel);
      }
      assert dead[..|dead|] == dead;
      TidyPairs(channels, channel);
      channels := Tidy(channels, channel);
    }

    predicate IsSubscribed(client: Client)
      reads this
    {
      client in clientChannels && clientChannels[client] != {}
    }

    method ClientDisconnected(client: Client)
      requires Valid()
      modifies this
      ensures Valid()
      ensures Subs() == set s | s in old(Subs()) && s.0 != client
    {
      if client !in clientChannels {
        RowIs(clientChannels, client);
        NothingOf(Subs(), client);
        return;
      }
      var names := InOrder(clientChannels[client]);
      ghost var before, row := channels, clientChannels[client];
      for i := 0 to |names|
        invariant clientChannels == old(clientChannels) && NoEmpty(channels)
        invariant Pairs(channels) == Without(Pairs(before), client, names[..i])
      {
        assert names[..i + 1] == names[..i] + [names[i]];
        RemovePairs(channels, names[i], client);
        channels := Remove(channels, names[i], client);
      }
      assert names[..|names|] == names;
      DisconnectedPairs(clientChannels, before, channels, client, names);
      clientChannels := clientChannels - {client};
    }

    method ActiveChannelCount() returns (count: nat)
      requires Valid()
      ensures count == |set s | s in Subs() :: s.1|
    {
      ghost var names := set s | s in Subs() :: s.1;
      ActiveChannels(clientChannels, channels, names);
      count := |channels|;
    }

    method TotalSubscriptionCount() returns (total: nat)
      requires Valid()
      ensures total == |Subs()|
    {
      total := 0;
      var todo := clientChannels;
      while todo.Keys != {}
        invariant total + |Pairs(todo)| == |Subs()|
        decreases |todo|
      {
        var client :| client in todo.Keys;
        SplitRow(todo, client);
        total := total + |todo[client]|;
        todo := todo - {client};
      }
      assert Pairs(todo) == {};
    }
  }

  method InOrder(members: set<string>) returns (order: seq<string>)
    ensures Enumerates(order, members)
  {
    order := [];
    var todo := members;
    while todo != {}
      invariant todo <= members && Elements(order) == members - todo && |order| == |members - todo|
      decreases |todo|
    {
      var name :| name in todo;
      ElementsSnoc(order, name);
      assert members - (todo - {name}) == (members - todo) + {name};
      order := order + [name];
      todo := todo - {name};
    }
    assert members - {} == members;
  }

  /** Who has been reached so far, and who has not. */
  ghost predicate Tried(subscribers: set<Client>, todo: set<Client>, reachable: Client -> bool, reached: set<Client>,
                        dead: seq<Client>)
  {
    && todo <= subscribers
    && (forall c :: c in reached <==> c in subscribers && c !in todo && reachable(c))
    && (forall c :: c in dead <==> c in subscribers && c !in todo && !reachable(c))
  }

  lemma {:induction false} TriedMore(subscribers: set<Client>, todo: set<Client>, reachable: Client -> bool,
                                     reached: set<Client>, dead: seq<Client>, client: Client)
    requires Tried(subscribers, todo, reachable, reached, dead) && client in todo
    ensures reachable(client) ==>
      |reached + {client}| == |reached| + 1 && Tried(subscribers, todo - {client}, reachable, reached + {client}, dead)
    ensures !reachable(client) ==> Tried(subscribers, todo - {client}, reachable, reached, dead + [client])
  {
  }

  lemma {:induction false} TriedAll(subscribers: set<Client>, reachable: Client -> bool, reached: set<Client>,
                                    dead: seq<Client>)
    requires Tried(subscribers, {}, reachable, reached, dead)
    ensures |reached| == |set c | c in subscribers && reachable(c)|
    ensures forall c :: c in dead <==> c in subscribers && !reachable(c)
  {
    assert reached == set c | c in subscribers && reachable(c);
  }

  /** What has been sent, and to whom. */
  ghost predicate Packed(order: seq<Client>, members: set<Client>, todo: set<Client>, sent: seq<Packet>,
                         bytes: string)
  {
    Enumerates(order, members - todo) && sent == Packets(order, bytes)
  }

  lemma {:induction false} PackedMore(order: seq<Client>, members: set<Client>, todo: set<Client>, sent: seq<Packet>,
                                      bytes: string, client: Client)
    requires client in todo && todo <= members && Packed(order, members, todo, sent, bytes)
    ensures Packed(order + [client], members, todo - {client}, sent + [Packet(client, bytes)], bytes)
  {
    PacketsMore(order, client, bytes);
    EnumeratesMore(order, members, todo, client);
  }

  method SendEach(subscribers: set<Client>, bytes: string, reachable: Client -> bool)
    returns (delivered: nat, dead: seq<Client>, sent: seq<Packet>, ghost order: seq<Client>, ghost reached: set<Client>)
    ensures Tried(subscribers, {}, reachable, reached, dead) && delivered == |reached|
    ensures Packed(order, subscribers, {}, sent, bytes)
  {
    delivered, dead, sent, order, reached := 0, [], [], [], {};
    var todo := subscribers;
    while todo != {}
      invariant Tried(subscribers, todo, reachable, reached, dead) && delivered == |reached|
      invariant Packed(order, subscribers, todo, sent, bytes)
      decreases |todo|
    {
      var client :| client in todo;
      TriedMore(subscribers, todo, reachable, reached, dead, client);
      PackedMore(order, subscribers, todo, sent, bytes, client);
      sent, order := sent + [Packet(client, bytes)], order + [client];
      if reachable(client) {
        delivered := delivered + 1;
        reached := reached + {client};
      } else {
        dead := dead + [client];
      }
      todo := todo - {client};
    }
  }

  method SendAll(subscribers: set<Client>, bytes: string, reachable: Client -> bool)
    returns (delivered: nat, dead: seq<Client>, sent: seq<Packet>, ghost order: seq<Client>)
    ensures delivered == |set c | c in subscribers && reachable(c)|
    ensures forall c :: c in dead <==> c in subscribers && !reachable(c)
    ensures Enumerates(order, subscribers) && sent == Packets(order, bytes)
  {
    ghost var reached;
    delivered, dead, sent, order, reached := SendEach(subscribers, bytes, reachable);
    TriedAll(subscribers, reachable, reached, dead);
    assert subscribers - {} == subscribers;
  }

  lemma {:induction false} PacketsMore(order: seq<Client>, client: Client, bytes: string)
    ensures Packets(order + [client], bytes) == Packets(order, bytes) + [Packet(client, bytes)]
  {
  }

  lemma {:induction false} EnumeratesMore(order: seq<Client>, members: set<Client>, todo: set<Client>, client: Client)
    requires client in todo && todo <= members && Enumerates(order, members - todo)
    ensures Enumerates(order + [client], members - (todo - {client}))
  {
    ElementsSnoc(order, client);
    assert members - (todo - {client}) == (members - todo) + {client};
  }

  // ---------------------------------------------------------------------
  // The operations on the set of subscriptions
  // ---------------------------------------------------------------------

  ghost function Joined(subs: Subscriptions, client: Client, names: seq<string>): Subscriptions {
    if names == [] then subs
    else Joined(subs, client, names[..|names| - 1]) + {(client, names[|names| - 1])}
  }

  ghost function JoinNotices(subs: Subscriptions, client: Client, names: seq<string>): seq<Notice> {
    if names == [] then []
    else JoinNotices(subs, client, names[..|names| - 1])
         + [Notice(names[|names| - 1], |Of(Joined(subs, client, names), client)|)]
  }

  lemma {:induction false} RowIs(clients: map<Client, set<string>>, client: Client)
    ensures Row(clients, client) == Of(Pairs(clients), client)
  {
    forall ch ensures ch in Row(clients, client) <==> ch in Of(Pairs(clients), client) {
      RowPairs(clients, client, ch);
    }
  }

  lemma {:induction false} ToMore(client: Client, channels: set<string>, channel: string)
    ensures To(client, channels + {channel}) == To(client, channels) + {(client, channel)}
  {
  }

  lemma {:induction false} OfPlus(subs: Subscriptions, client: Client, channels: set<string>)
    ensures Of(subs + To(client, channels), client) == Of(subs, client) + channels
  {
    var all := subs + To(client, channels);
    forall ch ensures ch in Of(all, client) <==> ch in Of(subs, client) + channels {
      assert ch in channels ==> (client, ch) in all;
      assert ch in Of(subs, client) ==> (client, ch) in all;
    }
  }

  ghost function Left(subs: Subscriptions, client: Client, names: seq<string>): Subscriptions {
    if names == [] then subs
    else Left(subs, client, names[..|names| - 1]) - {(client, names[|names| - 1])}
  }

  ghost function LeaveNotices(subs: Subscriptions, client: Client, names: seq<string>): seq<Notice> {
    if names == [] then []
    else LeaveNotices(subs, client, names[..|names| - 1])
         + [Notice(names[|names| - 1], |Of(Left(subs, client, names), client)|)]
  }

  ghost function Lost(subs: Subscriptions, channel: string, dead: seq<Client>): Subscriptions {
    if dead == [] then subs
    else Lost(subs, channel, dead[..|dead| - 1]) - {(dead[|dead| - 1], channel)}
  }

  ghost function Without(subs: set<(string, Client)>, client: Client, names: seq<string>): set<(string, Client)> {
    if names == [] then subs
    else Without(subs, client, names[..|names| - 1]) - {(names[|names| - 1], client)}
  }

  /** The subscriptions left when `channel` keeps only those that were reached. */
  ghost function Reached(subs: Subscriptions, channel: string, reachable: Client -> bool): Subscriptions {
    set s | s in subs && (s.1 == channel ==> reachable(s.0))
  }

  lemma {:induction false} LostMember(subs: Subscriptions, channel: string, dead: seq<Client>, s: (Client, string))
    ensures s in Lost(subs, channel, dead) <==> s in subs && !(s.1 == channel && s.0 in dead)
    decreases |dead|
  {
    if dead == [] {
    } else {
      var n := |dead| - 1;
      LostMember(subs, channel, dead[..n], s);
      assert dead == dead[..n] + [dead[n]];
    }
  }

  lemma {:induction false} ReachedAre(subs: Subscriptions, channel: string,
                                      reachable: Client -> bool, dead: seq<Client>, delivered: nat)
    requires delivered == |set c | c in On(subs, channel) && reachable(c)|
    requires forall c :: c in dead <==> c in On(subs, channel) && !reachable(c)
    ensures Lost(subs, channel, dead) == Reached(subs, channel, reachable)
    ensures delivered == |On(Reached(subs, channel, reachable), channel)|
  {
    forall s ensures s in Lost(subs, channel, dead) <==> s in Reached(subs, channel, reachable) {
      LostMember(subs, channel, dead, s);
      assert s in subs && s.1 == channel ==> s.0 in On(subs, channel);
    }
    var reached := set c | c in On(subs, channel) && reachable(c);
    forall c ensures c in reached <==> c in On(Reached(subs, channel, reachable), channel) {
      assert (c, channel) in Reached(subs, channel, reachable) <==> (c, channel) in subs && reachable(c);
    }
    assert reached == On(Reached(subs, channel, reachable), channel);
  }

  lemma {:induction false} ColumnIs(clients: map<Client, set<string>>, channels: map<string, set<Client>>,
                                    channel: string)
    requires ConversePairs(clients, channels)
    ensures Row(channels, channel) == On(Pairs(clients), channel)
  {
    forall c ensures c in Row(channels, channel) <==> c in On(Pairs(clients), channel) {
      RowPairs(channels, channel, c);
      assert (c, channel) in Pairs(clients) <==> (channel, c) in Pairs(channels);
    }
  }

  lemma {:induction false} NobodyOn(clients: map<Client, set<string>>, channels: map<string, set<Client>>,
                                    channel: string)
    requires ConversePairs(clients, channels) && channel !in channels
    ensures forall reachable: Client -> bool :: Reached(Pairs(clients), channel, reachable) == Pairs(clients)
    ensures On(Pairs(clients), channel) == {}
  {
    ColumnIs(clients, channels, channel);
    forall s | s in Pairs(clients) ensures s.1 != channel {
      assert s.1 == channel ==> s.0 in On(Pairs(clients), channel);
    }
  }

  lemma {:induction false} NothingOf(subs: Subscriptions, client: Client)
    requires Of(subs, client) == {}
    ensures (set s | s in subs && s.0 != client) == subs
  {
    forall s | s in subs ensures s.0 != client {
      assert s.0 == client ==> s.1 in Of(subs, client);
    }
  }

  lemma {:induction false} WithoutMember(subs: set<(string, Client)>, client: Client, names: seq<string>,
                                         s: (string, Client))
    ensures s in Without(subs, client, names) <==> s in subs && !(s.1 == client && s.0 in names)
    decreases |names|
  {
    if names == [] {
    } else {
      var n := |names| - 1;
      WithoutMember(subs, client, names[..n], s);
      assert names == names[..n] + [names[n]];
    }
  }

  lemma {:induction false} DisconnectedPairs(clients: map<Client, set<string>>, before: map<string, set<Client>>,
                          after: map<string, set<Client>>, client: Client, names: seq<string>)
    requires Converse(clients, before) && client in clients && Elements(names) == clients[client]
    requires Pairs(after) == Without(Pairs(before), client, names) && NoEmpty(after)
    ensures Converse(clients - {client}, after)
    ensures Pairs(clients - {client}) == set s | s in Pairs(clients) && s.0 != client
  {
    var rest := clients - {client};
    assert Pairs(rest) == set s | s in Pairs(clients) && s.0 != client;
    forall c, ch ensures (c, ch) in Pairs(rest) <==> (ch, c) in Pairs(after) {
      WithoutMember(Pairs(before), client, names, (ch, c));
      assert (c, ch) in Pairs(clients) <==> (ch, c) in Pairs(before);
      RowPairs(clients, client, ch);
      assert ch in names <==> ch in Elements(names);
    }
  }

  lemma {:induction false} ActiveChannels(clients: map<Client, set<string>>, channels: map<string, set<Client>>,
                                          names: set<string>)
    requires Converse(clients, channels)
    requires names == set s | s in Pairs(clients) :: s.1
    ensures channels.Keys == names && |channels| == |names|
  {
    forall ch ensures ch in channels <==> ch in names {
      if ch in channels {
        var c :| c in channels[ch];
        assert (ch, c) in Pairs(channels);
        assert (c, ch) in Pairs(clients);
      }
      if ch in names {
        var s :| s in Pairs(clients) && s.1 == ch;
        assert (s.0, s.1) in Pairs(clients);
        assert (ch, s.0) in Pairs(channels);
      }
    }
    assert channels.Keys == names;
    assert |channels| == |channels.Keys|;
  }

  // ---------------------------------------------------------------------
  // What the notices say
  // ---------------------------------------------------------------------

  /** Joining adds exactly the named channels. */
  lemma {:induction false} JoinedAre(subs: Subscriptions, client: Client, names: seq<string>)
    ensures Joined(subs, client, names) == subs + To(client, Elements(names))
    ensures Of(Joined(subs, client, names), client) == Of(subs, client) + Elements(names)
    decreases |names|
  {
    if names == [] {
      assert To(client, Elements(names)) == {};
    } else {
      var n := |names| - 1;
      JoinedAre(subs, client, names[..n]);
      assert names == names[..n] + [names[n]];
      ElementsSnoc(names[..n], names[n]);
      ToMore(client, Elements(names[..n]), names[n]);
    }
    OfPlus(subs, client, Elements(names));
  }

  lemma {:induction false} JoinNoticeFor(subs: Subscriptions, client: Client, names: seq<string>, i: nat)
    requires i < |names|
    ensures |JoinNotices(subs, client, names)| == |names|
    ensures JoinNotices(subs, client, names)[i] ==
            Notice(names[i], |Of(Joined(subs, client, names[..i + 1]), client)|)
    decreases |names|
  {
    var n := |names| - 1;
    if n == 0 {
    } else {
      JoinNoticeFor(subs, client, names[..n], if i < n then i else 0);
    }
    if i == n {
      assert names[..i + 1] == names;
    } else {
      assert names[..n][..i + 1] == names[..i + 1];
    }
  }

  /** The i-th notice of a SUBSCRIBE counts what is subscribed after its channel. */
  lemma {:induction false} JoinNoticeAt(subs: Subscriptions, client: Client, names: seq<string>, i: nat)
    requires i < |names|
    ensures |JoinNotices(subs, client, names)| == |names|
    ensures JoinNotices(subs, client, names)[i] ==
            Notice(names[i], |Of(subs, client) + Elements(names[..i + 1])|)
  {
    JoinNoticeFor(subs, client, names, i);
    JoinedAre(subs, client, names[..i + 1]);
  }

  /** Leaving removes exactly the named channels. */
  lemma {:induction false} LeftAre(subs: Subscriptions, client: Client, names: seq<string>)
    ensures Left(subs, client, names) == subs - To(client, Elements(names))
    ensures Of(Left(subs, client, names), client) == Of(subs, client) - Elements(names)
    decreases |names|
  {
    if names == [] {
      assert To(client, Elements(names)) == {};
    } else {
      var n := |names| - 1;
      LeftAre(subs, client, names[..n]);
      assert names == names[..n] + [names[n]];
      ElementsSnoc(names[..n], names[n]);
      ToMore(client, Elements(names[..n]), names[n]);
    }
    OfMinus(subs, client, Elements(names));
  }

  lemma {:induction false} OfMinus(subs: Subscriptions, client: Client, channels: set<string>)
    ensures Of(subs - To(client, channels), client) == Of(subs, client) - channels
  {
    var left := subs - To(client, channels);
    forall ch ensures ch in Of(left, client) <==> ch in Of(subs, client) - channels {
      assert ch in Of(left, client) <==> (client, ch) in left;
      assert ch in Of(subs, client) <==> (client, ch) in subs;
    }
  }

  lemma {:induction false} LeaveNoticeFor(subs: Subscriptions, client: Client, names: seq<string>, i: nat)
    requires i < |names|
    ensures |LeaveNotices(subs, client, names)| == |names|
    ensures LeaveNotices(subs, client, names)[i] ==
            Notice(names[i], |Of(Left(subs, client, names[..i + 1]), client)|)
    decreases |names|
  {
    var n := |names| - 1;
    if n == 0 {
    } else {
      LeaveNoticeFor(subs, client, names[..n], if i < n then i else 0);
    }
    if i == n {
      assert names[..i + 1] == names;
    } else {
      assert names[..n][..i + 1] == names[..i + 1];
    }
  }

  /** The i-th notice of an UNSUBSCRIBE counts what is left after its channel. */
  lemma {:induction false} LeaveNoticeAt(subs: Subscriptions, client: Client, names: seq<string>, i: nat)
    requires i < |names|
    ensures |LeaveNotices(subs, client, names)| == |names|
    ensures LeaveNotices(subs, client, names)[i] ==
            Notice(names[i], |Of(subs, client) - Elements(names[..i + 1])|)
  {
    LeaveNoticeFor(subs, client, names, i);
    LeftAre(subs, client, names[..i + 1]);
  }

  lemma {:induction false} PrefixSize(order: seq<string>, i: nat)
    requires i <= |order| && |Elements(order)| == |order|
    ensures |Elements(order[..i])| == i
    decreases |order| - i
  {
    if i == |order| {
      assert order[..i] == order;
    } else {
      PrefixSize(order, i + 1);
      ElementsUpTo(order, i);
      ElementsAtMost(order[..i]);
    }
  }

  lemma {:induction false} ElementsAtMost<T>(xs: seq<T>)
    ensures |Elements(xs)| <= |xs|
    decreases |xs|
  {
    if xs == [] {
    } else {
      var n := |xs| - 1;
      ElementsAtMost(xs[..n]);
      assert xs == xs[..n] + [xs[n]];
      ElementsSnoc(xs[..n], xs[n]);
    }
  }

  /** Leaving everything counts down to zero and leaves nothing. */
  lemma {:induction false} LeaveAllCounts(subs: Subscriptions, client: Client, targets: seq<string>, i: nat)
    requires Enumerates(targets, Of(subs, client)) && i < |targets|
    ensures LeaveNotices(subs, client, targets) != []
    ensures |LeaveNotices(subs, client, targets)| == |targets|
    ensures LeaveNotices(subs, client, targets)[i] == Notice(targets[i], |targets| - 1 - i)
    ensures Of(Left(subs, client, targets), client) == {}
  {
    LeaveNoticeAt(subs, client, targets, i);
    PrefixSize(targets, i + 1);
    LeftAre(subs, client, targets);
    var first := Elements(targets[..i + 1]);
    forall x | x in first ensures x in Of(subs, client) {
      assert x in targets;
      assert x in Elements(targets);
    }
    assert |Of(subs, client) - first| == |Of(subs, client)| - |first|;
  }

  lemma {:induction false} SubscribedIs(clients: map<Client, set<string>>, client: Client)
    ensures client in clients && clients[client] != {} <==> Of(Pairs(clients), client) != {}
  {
    RowIs(clients, client);
  }

  // ---------------------------------------------------------------------
  // Runs
  // ---------------------------------------------------------------------

  datatype Event =
    | Join(client: Client, names: seq<string>)
    | Leave(client: Client, names: seq<string>)
    | Send(channel: string, message: string, reachable: Client -> bool)
    | Close(client: Client)

  /** The reference: each operation on the set of subscriptions. */
  ghost function Follow(subs: Subscriptions, e: Event): Subscriptions {
    match e
    case Join(c, names) => subs + To(c, Elements(names))
    case Leave(c, names) => subs - To(c, if names == [] then Of(subs, c) else Elements(names))
    case Send(ch, message, reachable) => Reached(subs, ch, reachable)
    case Close(c) => set s | s in subs && s.0 != c
  }

  ghost function FollowAll(subs: Subscriptions, events: seq<Event>): Subscriptions {
    if events == [] then subs else Follow(FollowAll(subs, events[..|events| - 1]), events[|events| - 1])
  }

  method Perform(manager: PubSubManager, e: Event)
    requires manager.Valid()
    modifies manager
    ensures manager.Valid()
    ensures manager.Subs() == Follow(old(manager.Subs()), e)
  {
    match e
    case Join(c, names) =>
      JoinedAre(manager.Subs(), c, names);
      var _ := manager.Subscribe(c, names);
    case Leave(c, names) =>
      ghost var before := manager.Subs();
      var _, targets := manager.Unsubscribe(c, names);
      LeftAre(before, c, targets);
    case Send(ch, message, reachable) =>
      var _, _, _ := manager.Publish(ch, message, reachable);
    case Close(c) =>
      manager.ClientDisconnected(c);
  }

  /** Every run from an empty manager keeps the two indexes converse and holds
      exactly the subscriptions of the reference. */
  method Run(events: seq<Event>) returns (manager: PubSubManager)
    ensures fresh(manager) && manager.Valid()
    ensures manager.Subs() == FollowAll({}, events)
  {
    manager := new PubSubManager();
    for i := 0 to |events|
      invariant fresh(manager) && manager.Valid()
      invariant manager.Subs() == FollowAll({}, events[..i])
    {
      assert events[..i + 1][..i] == events[..i];
      Perform(manager, events[i]);
    }
    assert events[..|events|] == events;
  }
}
