/**
 Connections as the server runs them: every command of every client goes to a
 new handler, and the background sweep and disconnections happen in between.
 */
module Connections {
  import opened Base
  import opened Store
  import opened Parser
  import opened Commands
  import opened Transactions
  import opened Sessions
  import opened Courses
  import PubSub

  /** A command is given to a new handler, which is then dropped. */
  ghost predicate Serves(client: PubSub.Client, w: World, c: Command, now: int, w': World, reply: string) {
    exists h' :: Executes(IDLE, w, client, c, now, h', w', reply)
  }

  ghost predicate Occurs(w: World, act: Act, w': World, reply: string) {
    match act
    case Send(client, c, now) => Serves(client, w, c, now, w', reply)
    case Sweep(sample, at) => w' == World(Purge(w.store, sample, at), w.subs)
    case Drop(client, _) => w' == Dropped(w, client)
  }

  ghost predicate Served(worlds: seq<World>, acts: seq<Act>, replies: seq<string>)
    decreases |acts|
  {
    && |worlds| == |acts| + 1 && |replies| == |acts|
    && (acts != [] ==>
          && Occurs(worlds[0], acts[0], worlds[1], replies[0])
          && Served(worlds[1..], acts[1..], replies[1..]))
  }

  predicate Steering(act: Act) {
    act.Send? && Steers(act.command)
  }

  /** The keys a steering command reads. */
  ghost function Reads(w: World, client: PubSub.Client, c: Command): set<string> {
    if VerbOf(c.name) == WATCH && !Subscribed(w.subs, client) then Elements(c.args) else {}
  }

  /** What an event amounts to: a steering command at most removes expired keys. */
  ghost function Amounts(w: World, act: Act): Act {
    if Steering(act) then Sweep(Reads(w, act.client, act.command), act.now) else act
  }

  ghost function AllAmount(worlds: seq<World>, acts: seq<Act>): (r: seq<Act>)
    requires |worlds| == |acts| + 1
    ensures |r| == |acts|
    decreases |acts|
  {
    if acts == [] then [] else [Amounts(worlds[0], acts[0])] + AllAmount(worlds[1..], acts[1..])
  }

  /** Nobody has a session to speak of. */
  function Bare(w: World): Scene {
    Scene(map[], w)
  }

  function AllBare(worlds: seq<World>): (scenes: seq<Scene>)
    ensures |scenes| == |worlds|
  {
    if worlds == [] then [] else [Bare(worlds[0])] + AllBare(worlds[1..])
  }

  lemma {:induction false} BareAt(worlds: seq<World>, i: nat)
    requires i < |worlds|
    ensures AllBare(worlds)[i] == Bare(worlds[i])
    decreases i
  {
    if i == 0 {
    } else {
      BareAt(worlds[1..], i - 1);
    }
  }

  /** The replies that show a steering command to have no effect. */
  ghost predicate Powerless(c: Command, reply: string) {
    || reply == Refusal(c.name)
    || match VerbOf(c.name)
       case EXEC => reply == NO_MULTI_TO_EXEC
       case DISCARD => reply == NO_MULTI_TO_DISCARD
       case MULTI => reply == "OK"
       case WATCH => reply == "OK" || reply == WrongArguments("WATCH")
       case _ => true
  }

  ghost predicate AllPowerless(acts: seq<Act>, replies: seq<string>) {
    |acts| == |replies| &&
    forall i :: 0 <= i < |acts| && Steering(acts[i]) ==> Powerless(acts[i].command, replies[i])
  }

  // ---------------------------------------------------------------------
  // One command
  // ---------------------------------------------------------------------

  lemma {:induction false} PurgeNothing(w: World, now: int)
    ensures World(Purge(w.store, {}, now), w.subs) == w && World(Purge(w.store, Elements([]), now), w.subs) == w
  {
    assert (set k | k in {} && Expired(w.store, k, now)) == {};
    assert Elements<string>([]) == {};
  }

  lemma {:induction false} SteeringReads(w: World, client: PubSub.Client, c: Command, now: int, h': Session, w': World,
                                         reply: string)
    requires Steers(c) && Executes(IDLE, w, client, c, now, h', w', reply)
    ensures w' == World(Purge(w.store, Reads(w, client, c), now), w.subs) && Powerless(c, reply)
  {
    PurgeNothing(w, now);
  }

  lemma {:induction false} PlainIsSent(client: PubSub.Client, w: World, c: Command, now: int, h': Session, w': World,
                                       reply: string)
    requires !Steers(c) && Executes(IDLE, w, client, c, now, h', w', reply)
    ensures h' == IDLE
  {
  }

  lemma {:induction false} BareSent(client: PubSub.Client, w: World, c: Command, now: int, w': World, reply: string)
    requires Executes(IDLE, w, client, c, now, IDLE, w', reply)
    ensures Sent(Bare(w), client, c, now, Bare(w'), reply)
  {
    assert With(Bare(w).sessions, client, IDLE) == map[];
  }

  lemma {:induction false} OccursAmounts(w: World, act: Act, w': World, reply: string)
    requires Occurs(w, act, w', reply)
    ensures Happens(Bare(w), Amounts(w, act), Bare(w'), reply)
    ensures Steering(act) ==> Powerless(act.command, reply)
  {
    match act
    case Send(client, c, now) =>
      var h' :| Executes(IDLE, w, client, c, now, h', w', reply);
      if Steers(c) {
        SteeringReads(w, client, c, now, h', w', reply);
      } else {
        PlainIsSent(client, w, c, now, h', w', reply);
        BareSent(client, w, c, now, w', reply);
      }
    case Sweep(_, _) =>
    case Drop(client, _) => assert Bare(w).sessions - {client} == map[];
  }

  // ---------------------------------------------------------------------
  // Streams of commands
  // ---------------------------------------------------------------------

  lemma {:induction false} BareCourse(worlds: seq<World>, act: Act, rest: seq<Act>, replies: seq<string>)
    requires |worlds| == |rest| + 2 && |replies| == |rest| + 1
    requires Happens(Bare(worlds[0]), act, Bare(worlds[1]), replies[0])
    requires Course(AllBare(worlds[1..]), rest, replies[1..])
    ensures Course(AllBare(worlds), [act] + rest, replies)
  {
    BareAt(worlds[1..], 0);
    CourseFrom(Bare(worlds[0]), act, replies[0], AllBare(worlds[1..]), rest, replies[1..]);
    assert [replies[0]] + replies[1..] == replies;
  }

  /** Over connections, the steering commands are sweeps and nobody gets a session. */
  lemma {:induction false} ServedIsCourse(worlds: seq<World>, acts: seq<Act>, replies: seq<string>)
    requires Served(worlds, acts, replies)
    ensures Course(AllBare(worlds), AllAmount(worlds, acts), replies)
    decreases |acts|
  {
    if acts == [] {
    } else {
      OccursAmounts(worlds[0], acts[0], worlds[1], replies[0]);
      ServedIsCourse(worlds[1..], acts[1..], replies[1..]);
      BareCourse(worlds, Amounts(worlds[0], acts[0]), AllAmount(worlds[1..], acts[1..]), replies);
    }
  }

  lemma {:induction false} ServedPowerless(worlds: seq<World>, acts: seq<Act>, replies: seq<string>)
    requires Served(worlds, acts, replies)
    ensures AllPowerless(acts, replies)
    decreases |acts|
  {
    if acts == [] {
    } else {
      OccursAmounts(worlds[0], acts[0], worlds[1], replies[0]);
      ServedPowerless(worlds[1..], acts[1..], replies[1..]);
      MorePowerless(acts, replies);
    }
  }

  lemma {:induction false} MorePowerless(acts: seq<Act>, replies: seq<string>)
    requires acts != [] && replies != [] && AllPowerless(acts[1..], replies[1..])
    requires Steering(acts[0]) ==> Powerless(acts[0].command, replies[0])
    ensures AllPowerless(acts, replies)
  {
    forall i | 0 <= i < |acts| && Steering(acts[i]) ensures Powerless(acts[i].command, replies[i]) {
      if i > 0 { assert acts[1..][i - 1] == acts[i] && replies[1..][i - 1] == replies[i]; }
    }
  }

  /** The events but for sweeps and steering commands. */
  function Plain(acts: seq<Act>): seq<Act> {
    if acts == [] then []
    else if acts[0].Sweep? || Steering(acts[0]) then Plain(acts[1..])
    else [acts[0]] + Plain(acts[1..])
  }

  /** What is said in them, by clients that are all idle. */
  function PlainExchanges(acts: seq<Act>, replies: seq<string>): seq<Exchange>
    requires |replies| == |acts|
  {
    if acts == [] then []
    else if acts[0].Send? && !Steers(acts[0].command) then
      [Exchange(acts[0].client, acts[0].command, IDLE, replies[0])] + PlainExchanges(acts[1..], replies[1..])
    else PlainExchanges(acts[1..], replies[1..])
  }

  lemma {:induction false} AmountsArePlain(worlds: seq<World>, acts: seq<Act>, replies: seq<string>)
    requires |worlds| == |acts| + 1 && |replies| == |acts|
    ensures Deeds(AllAmount(worlds, acts)) == Plain(acts)
    ensures Exchanges(AllBare(worlds), AllAmount(worlds, acts), replies) == PlainExchanges(acts, replies)
    decreases |acts|
  {
    if acts == [] {
    } else {
      AmountsArePlain(worlds[1..], acts[1..], replies[1..]);
      AmountsFirst(worlds, acts, replies);
    }
  }

  lemma {:induction false} AmountsFirst(worlds: seq<World>, acts: seq<Act>, replies: seq<string>)
    requires |worlds| == |acts| + 1 && |replies| == |acts| && acts != []
    requires Deeds(AllAmount(worlds[1..], acts[1..])) == Plain(acts[1..])
    requires Exchanges(AllBare(worlds[1..]), AllAmount(worlds[1..], acts[1..]), replies[1..])
             == PlainExchanges(acts[1..], replies[1..])
    ensures Deeds(AllAmount(worlds, acts)) == Plain(acts)
    ensures Exchanges(AllBare(worlds), AllAmount(worlds, acts), replies) == PlainExchanges(acts, replies)
  {
    var amounts, scenes := AllAmount(worlds, acts), AllBare(worlds);
    assert amounts[1..] == AllAmount(worlds[1..], acts[1..]) && scenes[1..] == AllBare(worlds[1..]);
    assert scenes[0] == Bare(worlds[0]) && amounts[0] == Amounts(worlds[0], acts[0]);
    assert [] + PlainExchanges(acts[1..], replies[1..]) == PlainExchanges(acts[1..], replies[1..]);
  }

  lemma {:induction false} AmountsClocked(from: int, worlds: seq<World>, acts: seq<Act>, until: int)
    requires |worlds| == |acts| + 1 && Clocked(When, from, acts, until)
    ensures Clocked(When, from, AllAmount(worlds, acts), until)
    decreases |acts|
  {
    if acts == [] {
    } else {
      AmountsClocked(When(acts[0]), worlds[1..], acts[1..], until);
      assert AllAmount(worlds, acts)[1..] == AllAmount(worlds[1..], acts[1..]);
    }
  }

  lemma {:induction false} BareTwin(w: World, from: int)
    requires Consistent(w.store)
    ensures Twin(Bare(w), Bare(w), from)
  {
  }

  /**
   Over connections transactions do nothing: every steering command says so or is
   refused, and the other commands of all clients, sent alone from the same world
   with whatever sweeps, can give the same replies, but for the counts of DEL, and
   leave a world that looks alike.
   */
  lemma {:induction false} ConnectionIgnoresTransactions(worlds: seq<World>, acts: seq<Act>, replies: seq<string>,
                                                         plan: seq<Act>, from: int, start: int, until: int)
    returns (ss: seq<Scene>, rs: seq<string>)
    requires Served(worlds, acts, replies) && Consistent(worlds[0].store) && Deeds(plan) == Plain(acts)
    requires Clocked(When, from, acts, until) && Clocked(When, start, plan, until)
    ensures AllPowerless(acts, replies)
    ensures Course(ss, plan, rs) && ss[0] == Bare(worlds[0])
    ensures AllAgreed(PlainExchanges(acts, replies), Exchanges(ss, plan, rs))
    ensures Twin(Bare(worlds[|acts|]), ss[|plan|], until)
  {
    var amounts, scenes := AllAmount(worlds, acts), AllBare(worlds);
    ServedIsCourse(worlds, acts, replies);
    ServedPowerless(worlds, acts, replies);
    AmountsArePlain(worlds, acts, replies);
    AmountsClocked(from, worlds, acts, until);
    BareAt(worlds, 0);
    BareAt(worlds, |acts|);
    BareTwin(worlds[0], Next(amounts, until));
    ss, rs := SameCourse(scenes, amounts, replies, Bare(worlds[0]), plan, from, start, until);
  }
}
