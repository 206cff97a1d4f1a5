/** A whole conversation: from what a client sends to what it shows. */
module Conversation {
  import opened Base
  import opened Parser
  import opened Resp
  import opened Reply
  import opened ListReply
  import opened Commands
  import opened Courses
  import opened Connections
  import opened Framing
  import Client
  import Database
  import Handler
  import PubSub

  /** The commands of one client, each at its time. */
  function Asks(client: PubSub.Client, commands: seq<Command>, clock: nat -> int): (acts: seq<Act>)
    ensures |acts| == |commands|
  {
    seq(|commands|, i requires 0 <= i < |commands| => Send(client, commands[i], clock(i)))
  }

  lemma {:induction false} AsksMore(client: PubSub.Client, commands: seq<Command>, clock: nat -> int, i: nat)
    requires i < |commands|
    ensures Asks(client, commands[..i + 1], clock) ==
      Asks(client, commands[..i], clock) + [Send(client, commands[i], clock(i))]
  {
  }

  lemma {:induction false} ServedFrom(w: World, act: Act, reply: string, worlds: seq<World>, acts: seq<Act>,
                                      replies: seq<string>)
    requires Served(worlds, acts, replies) && Occurs(w, act, worlds[0], reply)
    ensures Served([w] + worlds, [act] + acts, [reply] + replies)
  {
    assert ([w] + worlds)[1..] == worlds && ([act] + acts)[1..] == acts && ([reply] + replies)[1..] == replies;
  }

  lemma {:induction false} Further<T>(xs: seq<T>, x: T)
    requires xs != []
    ensures xs + [x] == [xs[0]] + (xs[1..] + [x])
  {
  }

  lemma {:induction false} ServedFirst(w: World, act: Act, w': World, reply: string)
    requires Occurs(w, act, w', reply)
    ensures Served([w] + [w'], [] + [act], [] + [reply])
  {
    ServedFrom(w, act, reply, [w'], [], []);
    assert [act] + [] == [] + [act] && [reply] + [] == [] + [reply];
  }

  lemma {:induction false} ServedMore(worlds: seq<World>, acts: seq<Act>, replies: seq<string>, act: Act, w: World,
                                      reply: string)
    requires Served(worlds, acts, replies) && Occurs(worlds[|acts|], act, w, reply)
    ensures Served(worlds + [w], acts + [act], replies + [reply])
    decreases |acts|
  {
    if acts == [] {
      assert worlds == [worlds[0]];
      ServedFirst(worlds[0], act, w, reply);
    } else {
      ServedMore(worlds[1..], acts[1..], replies[1..], act, w, reply);
      ServedFrom(worlds[0], acts[0], replies[0], worlds[1..] + [w], acts[1..] + [act], replies[1..] + [reply]);
      Further(worlds, w);
      Further(acts, act);
      Further(replies, reply);
    }
  }

  /** The first `i` commands have been served and answered. */
  ghost predicate Progress(worlds: seq<World>, client: PubSub.Client, commands: seq<Command>, clock: nat -> int, i: nat,
                           replies: seq<string>, wire: string)
  {
    i <= |commands| && Served(worlds, Asks(client, commands[..i], clock), replies) && wire == Concat(Wires(replies))
  }

  lemma {:induction false} ProgressMore(worlds: seq<World>, client: PubSub.Client, commands: seq<Command>,
                                        clock: nat -> int,
                                        i: nat, replies: seq<string>, wire: string, w: World, reply: string)
    requires i < |commands| && Progress(worlds, client, commands, clock, i, replies, wire)
    requires Serves(client, worlds[i], commands[i], clock(i), w, reply)
    ensures Progress(worlds + [w], client, commands, clock, i + 1, replies + [reply], wire + Serialize(reply))
  {
    ServedMore(worlds, Asks(client, commands[..i], clock), replies, Send(client, commands[i], clock(i)), w, reply);
    AsksMore(client, commands, clock, i);
    WiresMore(replies, reply);
  }

  lemma {:induction false} WiresMore(texts: seq<string>, text: string)
    ensures Concat(Wires(texts + [text])) == Concat(Wires(texts)) + Serialize(text)
    decreases |texts|
  {
    if texts == [] {
      assert [text][1..] == [] && texts + [text] == [text];
      assert Serialize(text) + "" == "" + Serialize(text);
    } else {
      WiresMore(texts[1..], text);
      assert (texts + [text])[1..] == texts[1..] + [text];
      Regroup(Serialize(texts[0]), Concat(Wires(texts[1..])), Serialize(text));
    }
  }

  /** One command, given to a new handler. */
  method ServeOne(db: Database.Database, pubsub: PubSub.PubSubManager, client: PubSub.Client, cmd: Command, now: int,
                  chance: nat -> Handler.Chance)
    returns (reply: string)
    requires pubsub.Valid()
    modifies db, pubsub
    ensures pubsub.Valid()
    ensures Serves(client, old(World(db.State(), pubsub.Subs())), cmd, now, World(db.State(), pubsub.Subs()), reply)
  {
    var handler := new Handler.CommandHandler(db, pubsub, client);
    reply := handler.Execute(cmd, now, chance);
  }

  /** The commands one after another, and the bytes sent back. */
  method ServeAll(db: Database.Database, pubsub: PubSub.PubSubManager, client: PubSub.Client, commands: seq<Command>,
                  clock: nat -> int, chance: nat -> nat -> Handler.Chance)
    returns (replies: seq<string>, wire: string, ghost worlds: seq<World>)
    requires pubsub.Valid()
    modifies db, pubsub
    ensures pubsub.Valid() && Served(worlds, Asks(client, commands, clock), replies)
    ensures worlds[0] == old(World(db.State(), pubsub.Subs())) && worlds[|commands|] == World(db.State(), pubsub.Subs())
    ensures wire == Concat(Wires(replies))
  {
    replies, wire, worlds := [], "", [World(db.State(), pubsub.Subs())];
    for i := 0 to |commands|
      invariant pubsub.Valid() && Progress(worlds, client, commands, clock, i, replies, wire)
      invariant worlds[0] == old(World(db.State(), pubsub.Subs())) && worlds[i] == World(db.State(), pubsub.Subs())
    {
      var reply := ServeOne(db, pubsub, client, commands[i], clock(i), chance(i));
      var answer := SerializeResponse(reply);
      ghost var after := World(db.State(), pubsub.Subs());
      ProgressMore(worlds, client, commands, clock, i, replies, wire, after, reply);
      replies, wire, worlds := replies + [reply], wire + answer, worlds + [after];
    }
    assert commands[..|commands|] == commands;
  }

  /** What a new client shows for the bytes, in whatever pieces they come. */
  method ShowAll(ghost texts: seq<string>, n: nat, wire: string, pieces: string -> seq<string>)
    returns (shown: seq<string>)
    requires n == |texts| && wire == Concat(Wires(texts)) && Concat(pieces(wire)) == wire
    ensures AllTrip(texts) ==> shown == texts
  {
    var reader := new Client.Client();
    assert "" + wire == wire && wire + "" == wire;
    var left;
    shown, left := ReadTexts(reader, texts, n, pieces(wire), "");
  }

  /**
   A client sends commands other than QUIT, as arrays or quoted lines; the bytes
   are cut anywhere on either way; each command goes to a new handler.  What the
   client shows is what the handlers replied, in order, if each reply is a text that
   it shows as it is written.
   */
  method Talk(db: Database.Database, pubsub: PubSub.PubSubManager, client: PubSub.Client, ghost messages: seq<Message>,
              chunks: seq<string>, sends: seq<nat -> bool>, clock: nat -> int, chance: nat -> nat -> Handler.Chance,
              pieces: string -> seq<string>)
    returns (replies: seq<string>, shown: seq<string>, ghost worlds: seq<World>)
    requires AllMessages(messages) && Framing.Reads(chunks) && |sends| == |chunks| && AllSent(sends)
    requires Concat(chunks) == Wire(messages) && forall s :: Concat(pieces(s)) == s
    requires pubsub.Valid()
    modifies db, pubsub
    ensures Served(worlds, Asks(client, Meant(messages), clock), replies)
    ensures worlds[0] == old(World(db.State(), pubsub.Subs()))
    ensures worlds[|Meant(messages)|] == World(db.State(), pubsub.Subs())
    ensures AllTrip(replies) ==> shown == replies
  {
    var keep, commands := ReceiveCommands(messages, chunks, sends);
    var wire;
    replies, wire, worlds := ServeAll(db, pubsub, client, commands, clock, chance);
    shown := ShowAll(replies, |replies|, wire, pieces);
  }
}
