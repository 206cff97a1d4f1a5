/** The same commands, run by EXEC or sent one by one. */
module Execution {
  import opened Base
  import opened Store
  import opened Parser
  import opened RoundTrip
  import opened Commands
  import opened Simulation
  import opened Transactions
  import Errors
  import ListLaws
  import ListReply
  import PubSub
  import Text

  // ---------------------------------------------------------------------
  // Refusals
  // ---------------------------------------------------------------------

  predicate Unlike(text: string) {
    |text| < 5 || text[0] != 'E' || text[4] != 'C'
  }

  lemma {:induction false} RefusalLook(name: string)
    ensures !Unlike(Refusal(name)) && Refusal(name)[|Refusal(name)| - 1] == 't'
  {
  }

  lemma {:induction false} ErrorsLook(name: string)
    ensures Unlike(WrongArguments(name)) && Unlike(BadExpiry(name)) && Unlike(Unknown(name))
    ensures Unlike(NOT_AN_INTEGER) && Unlike(SAVE_FAILED) && Unlike(WRONGTYPE) && Unlike("OK")
  {
    assert WrongArguments(name)[4] == 'w' && BadExpiry(name)[4] == 'i' && Unknown(name)[4] == 'u';
    assert NOT_AN_INTEGER[4] == 'v' && SAVE_FAILED[4] == 'f' && WRONGTYPE[0] == 'W';
  }

  lemma {:induction false} ResponseLook(r: Response)
    requires !r.Error? && !r.Status?
    ensures Unlike(Show(r))
  {
    Errors.ShowStarts(r);
  }

  lemma {:induction false} ConfigLook(args: seq<string>)
    ensures Unlike(ConfigReply(args))
  {
    ErrorsLook("CONFIG");
    ErrorsLook("CONFIG GET");
    ErrorsLook("CONFIG SET");
    ResponseLook(List([]));
    if |args| == 2 { ResponseLook(List([Quote(args[1]), Quote("")])); }
    if args != [] {
      var text := "ERR Unknown subcommand '" + Text.Upper(args[0]) + "'";
      assert text[4] == 'U';
    }
  }

  lemma {:induction false} SaidLook(c: Command)
    requires !WhileSubscribed(c) && Route(c).Say?
    ensures Unlike(Route(c).text)
  {
    match VerbOf(c.name)
    case CONFIG => ConfigLook(c.args);
    case SET => ErrorsLook("SET");
    case GET => ErrorsLook("GET");
    case DEL => ErrorsLook("DEL");
    case EXISTS => ErrorsLook("EXISTS");
    case EXPIRE => ErrorsLook("EXPIRE");
    case TTL => ErrorsLook("TTL");
    case PERSIST => ErrorsLook("PERSIST");
    case LPUSH => ErrorsLook("LPUSH");
    case RPUSH => ErrorsLook("RPUSH");
    case LPOP => ErrorsLook("LPOP");
    case RPOP => ErrorsLook("RPOP");
    case LRANGE => ErrorsLook("LRANGE");
    case LLEN => ErrorsLook("LLEN");
    case LINDEX => ErrorsLook("LINDEX");
    case PUBLISH => ErrorsLook("PUBLISH");
    case _ => ErrorsLook(c.name);
  }

  lemma {:induction false} RepliesLook(s: Store, op: Op, now: int, reply: string)
    requires Replies(s, op, now, reply)
    ensures Unlike(reply)
  {
    if op.Keys? {
      var order :| Ordering(order, s, now) && reply == Show(List(ListReply.Quotes(order)));
      ResponseLook(List(ListReply.Quotes(order)));
    } else {
      AnswerLook(op, AnswerTo(s, op, now));
    }
  }

  lemma {:induction false} AnswerLook(op: Op, a: Answer)
    requires !a.Names?
    ensures Unlike(Show(ResponseTo(op, a)))
  {
    var r := ResponseTo(op, a);
    ErrorsLook("");
    if !r.Error? && !r.Status? { ResponseLook(r); }
  }

  lemma {:induction false} PlanLook(w: World, client: PubSub.Client, plan: Plan, now: int, w': World, reply: string)
    requires Does(w, client, plan, now, w', reply) && !plan.Say? && !plan.Join? && !plan.Leave?
    requires plan.Write? ==> Unlike(plan.text)
    ensures Unlike(reply) || (reply != [] && reply[|reply| - 1] == '\n')
  {
    match plan
    case Ask(op) => RepliesLook(w.store, op, now, reply);
    case Save => ErrorsLook("");
    case Tell(channel) => ResponseLook(Integer(|PubSub.On(w'.subs, channel)|));
    case Info => InfoEnds(reply, "\n# Keyspace\ndb0:keys=" + Text.ToString(AnswerTo(w.store, DbSize, now).count), "\n");
    case Write(_, _, _, _) =>
  }

  lemma {:induction false} InfoEnds(reply: string, a: string, b: string)
    requires EndsWith(reply, a + b) && b != []
    ensures reply != [] && reply[|reply| - 1] == b[|b| - 1]
  {
    var tail := a + b;
    assert reply[|reply| - |tail|..][|tail| - 1] == tail[|tail| - 1];
  }

  lemma {:induction false} WrittenLook(c: Command)
    requires Route(c).Write?
    ensures Unlike(Route(c).text)
  {
    ErrorsLook("SET");
  }

  lemma {:induction false} OtherRoutes(c: Command)
    requires !WhileSubscribed(c)
    ensures !Route(c).Join? && !Route(c).Leave?
  {
  }

  lemma {:induction false} LooksOther(w: World, client: PubSub.Client, c: Command, now: int, w': World, reply: string)
    requires Performs(w, client, c, now, w', reply) && !WhileSubscribed(c)
    ensures Unlike(reply) || (reply != [] && reply[|reply| - 1] == '\n')
  {
    OtherRoutes(c);
    if Route(c).Say? {
      SaidLook(c);
    } else {
      if Route(c).Write? { WrittenLook(c); }
      PlanLook(w, client, Route(c), now, w', reply);
    }
  }

  lemma {:induction false} IsNoRefusal(reply: string, name: string)
    requires Unlike(reply) || (reply != [] && reply[|reply| - 1] == '\n')
    ensures reply != Refusal(name)
  {
    RefusalLook(name);
  }

  /** No command gives the reply by which a command is refused. */
  lemma {:induction false} NeverRefusal(w: World, client: PubSub.Client, c: Command, now: int, w': World, reply: string)
    requires Performs(w, client, c, now, w', reply) && !WhileSubscribed(c)
    ensures reply != Refusal(c.name)
  {
    LooksOther(w, client, c, now, w', reply);
    IsNoRefusal(reply, c.name);
  }

  // ---------------------------------------------------------------------
  // Sending one by one
  // ---------------------------------------------------------------------

  /** The same commands, sent one by one outside MULTI. */
  ghost predicate Direct(h: Session, worlds: seq<World>, client: PubSub.Client, commands: seq<Command>, now: int,
                         replies: seq<string>)
  {
    && |worlds| == |commands| + 1 && |replies| == |commands|
    && forall i :: 0 <= i < |commands| ==> DirectAt(h, worlds, client, commands, now, replies, i)
  }

  ghost predicate DirectAt(h: Session, worlds: seq<World>, client: PubSub.Client, commands: seq<Command>, now: int,
                           replies: seq<string>, i: nat)
    requires |worlds| == |commands| + 1 && |replies| == |commands| && i < |commands|
  {
    Executes(h, worlds[i], client, commands[i], now, h, worlds[i + 1], replies[i])
  }

  ghost predicate Steerless(commands: seq<Command>) {
    forall i :: 0 <= i < |commands| ==> !Steers(commands[i])
  }

  ghost predicate Allowed(w: World, client: PubSub.Client, c: Command) {
    Subscribed(w.subs, client) ==> WhileSubscribed(c)
  }

  /** No command comes while the client is subscribed, but those allowed then. */
  ghost predicate Permitted(worlds: seq<World>, client: PubSub.Client, commands: seq<Command>)
    requires |worlds| == |commands| + 1
  {
    forall i :: 0 <= i < |commands| ==> Allowed(worlds[i], client, commands[i])
  }

  lemma {:induction false} DirectStep(h: Session, w: World, client: PubSub.Client, c: Command, now: int, w': World,
                                      reply: string)
    requires !h.inMulti && !Steers(c)
    ensures Allowed(w, client, c) ==>
      (Executes(h, w, client, c, now, h, w', reply) <==> Performs(w, client, c, now, w', reply))
    ensures !Allowed(w, client, c) && Executes(h, w, client, c, now, h, w', reply) ==> reply == Refusal(c.name)
  {
  }

  lemma {:induction false} StepExactly(h: Session, w: World, client: PubSub.Client, c: Command, now: int, w': World,
                                       reply: string)
    requires !h.inMulti && !Steers(c) && Performs(w, client, c, now, w', reply)
    ensures Executes(h, w, client, c, now, h, w', reply) <==> Allowed(w, client, c)
  {
    DirectStep(h, w, client, c, now, w', reply);
    if !Allowed(w, client, c) { NeverRefusal(w, client, c, now, w', reply); }
  }

  lemma {:induction false} LinkExactly(h: Session, worlds: seq<World>, client: PubSub.Client, commands: seq<Command>,
                                       now: int, replies: seq<string>, i: nat)
    requires !h.inMulti && Steerless(commands) && Chain(worlds, client, commands, now, replies) && i < |commands|
    ensures DirectAt(h, worlds, client, commands, now, replies, i) <==> Allowed(worlds[i], client, commands[i])
  {
    assert Link(worlds, client, commands, now, replies, i);
    StepExactly(h, worlds[i], client, commands[i], now, worlds[i + 1], replies[i]);
  }

  /** What a queue goes through in EXEC its commands go through one by one,
      exactly when none of them would be refused for being subscribed. */
  lemma {:induction false} DirectExactly(h: Session, worlds: seq<World>, client: PubSub.Client, commands: seq<Command>,
                                         now: int, replies: seq<string>)
    requires !h.inMulti && Steerless(commands) && Chain(worlds, client, commands, now, replies)
    ensures Direct(h, worlds, client, commands, now, replies) <==> Permitted(worlds, client, commands)
  {
    forall i | 0 <= i < |commands|
      ensures DirectAt(h, worlds, client, commands, now, replies, i) <==> Allowed(worlds[i], client, commands[i])
    {
      LinkExactly(h, worlds, client, commands, now, replies, i);
    }
  }

  /** And the other way round: a direct run without refusals is one that EXEC can take. */
  lemma {:induction false} DirectIsChain(h: Session, worlds: seq<World>, client: PubSub.Client, commands: seq<Command>,
                                         now: int, replies: seq<string>)
    requires !h.inMulti && Steerless(commands) && Direct(h, worlds, client, commands, now, replies)
    requires Permitted(worlds, client, commands)
    ensures Chain(worlds, client, commands, now, replies)
  {
    forall i | 0 <= i < |commands| ensures Link(worlds, client, commands, now, replies, i) {
      assert DirectAt(h, worlds, client, commands, now, replies, i) && Allowed(worlds[i], client, commands[i]);
      DirectStep(h, worlds[i], client, commands[i], now, worlds[i + 1], replies[i]);
    }
  }

  // ---------------------------------------------------------------------
  // EXEC
  // ---------------------------------------------------------------------

  /** Equal, but for the counts of DEL. */
  ghost predicate SameButCounts(commands: seq<Command>, a: seq<string>, b: seq<string>) {
    |a| == |b| == |commands| && forall i :: 0 <= i < |commands| ==> Counts(commands[i]) || a[i] == b[i]
  }

  ghost predicate AllAlike(a: seq<World>, b: seq<World>, now: int) {
    |a| == |b| && forall i :: 0 <= i < |a| ==> Alike(a[i], b[i], now)
  }

  /** What a run of commands does in one world it can do in any world that looks alike. */
  lemma {:induction false} ChainAlike(worlds: seq<World>, client: PubSub.Client, commands: seq<Command>, now: int,
                                      replies: seq<string>, b: World)
    returns (ws: seq<World>, rs: seq<string>)
    requires Chain(worlds, client, commands, now, replies) && Alike(worlds[0], b, now)
    ensures Chain(ws, client, commands, now, rs) && ws[0] == b
    ensures AllAlike(worlds, ws, now) && SameButCounts(commands, replies, rs)
    decreases |commands|
  {
    if commands == [] {
      ws, rs := [b], [];
    } else {
      var n := |commands| - 1;
      ChainFront(worlds, client, commands, now, replies);
      ws, rs := ChainAlike(worlds[..n + 1], client, commands[..n], now, replies[..n], b);
      ws, rs := LinkAlike(worlds, client, commands, now, replies, ws, rs);
    }
  }

  lemma {:induction false} LinkAlike(worlds: seq<World>, client: PubSub.Client, commands: seq<Command>, now: int,
                                     replies: seq<string>, ws: seq<World>, rs: seq<string>)
    returns (ws': seq<World>, rs': seq<string>)
    requires Chain(worlds, client, commands, now, replies) && commands != []
    requires
      var n := |commands| - 1;
      && Chain(ws, client, commands[..n], now, rs)
      && AllAlike(worlds[..n + 1], ws, now) && SameButCounts(commands[..n], replies[..n], rs)
    ensures Chain(ws', client, commands, now, rs') && ws'[0] == ws[0]
    ensures AllAlike(worlds, ws', now) && SameButCounts(commands, replies, rs')
  {
    var n := |commands| - 1;
    ChainFront(worlds, client, commands, now, replies);
    assert Alike(worlds[..n + 1][n], ws[n], now);
    var w := There(ws[n], commands[n], now, worlds[n + 1].subs);
    var r := ReplyThere(ws[n], commands[n], now, replies[n]);
    PerformsAlike(worlds[n], ws[n], client, commands[n], now, worlds[n + 1], replies[n]);
    ChainMore(ws, client, commands[..n], now, rs, commands[n], w, r);
    MoreAlike(worlds, ws, w, now);
    MoreSame(commands, replies, rs, r);
    assert commands == commands[..n] + [commands[n]];
    ws', rs' := ws + [w], rs + [r];
  }

  lemma {:induction false} MoreAlike(a: seq<World>, b: seq<World>, w: World, now: int)
    requires a != [] && AllAlike(a[..|a| - 1], b, now) && Alike(a[|a| - 1], w, now)
    ensures AllAlike(a, b + [w], now)
  {
    forall i | 0 <= i < |a| ensures Alike(a[i], (b + [w])[i], now) {
      if i < |a| - 1 { assert Alike(a[..|a| - 1][i], b[i], now); }
    }
  }

  lemma {:induction false} MoreSame(commands: seq<Command>, a: seq<string>, b: seq<string>, r: string)
    requires commands != [] && |a| == |commands|
    requires SameButCounts(commands[..|commands| - 1], a[..|a| - 1], b)
    requires Counts(commands[|commands| - 1]) || a[|a| - 1] == r
    ensures SameButCounts(commands, a, b + [r])
  {
    var n := |commands| - 1;
    forall i | 0 <= i < |commands| ensures Counts(commands[i]) || a[i] == (b + [r])[i] {
      if i < n { assert Counts(commands[..n][i]) || a[..n][i] == b[i]; }
    }
  }

  lemma {:induction false} SameStores(a: World, b: World, client: PubSub.Client, c: Command, now: int,
                                      a': World, x: string, b': World, y: string, keys: set<string>)
    requires Performs(a, client, c, now, a', x) && Performs(b, client, c, now, b', y)
    requires a.store == Purge(b.store, keys, now)
    ensures a'.store == Purge(b'.store, keys, now)
  {
    RouteAhead(c);
    PurgeFirstAll(b.store, Ops(Route(c)), keys, now);
  }

  /** The removal of expired keys before a run is, at each moment, all that tells the two runs apart. */
  lemma {:induction false} PurgedChain(worlds: seq<World>, ws: seq<World>, client: PubSub.Client,
                                       commands: seq<Command>,
                                       now: int, replies: seq<string>, rs: seq<string>, keys: set<string>, n: nat)
    requires Chain(worlds, client, commands, now, replies) && Chain(ws, client, commands, now, rs) && n <= |commands|
    requires worlds[0].store == Purge(ws[0].store, keys, now)
    ensures worlds[n].store == Purge(ws[n].store, keys, now)
    decreases n
  {
    if n == 0 {
    } else {
      PurgedChain(worlds, ws, client, commands, now, replies, rs, keys, n - 1);
      PurgedLink(worlds, ws, client, commands, now, replies, rs, keys, n - 1);
    }
  }

  lemma {:induction false} PurgedLink(worlds: seq<World>, ws: seq<World>, client: PubSub.Client, commands: seq<Command>,
                                      now: int, replies: seq<string>, rs: seq<string>, keys: set<string>, i: nat)
    requires Chain(worlds, client, commands, now, replies) && Chain(ws, client, commands, now, rs) && i < |commands|
    requires worlds[i].store == Purge(ws[i].store, keys, now)
    ensures worlds[i + 1].store == Purge(ws[i + 1].store, keys, now)
  {
    assert Link(worlds, client, commands, now, replies, i) && Link(ws, client, commands, now, rs, i);
    SameStores(worlds[i], ws[i], client, commands[i], now, worlds[i + 1], replies[i], ws[i + 1], rs[i], keys);
  }

  /** The count of a DEL in the two runs. */
  lemma {:induction false} DelLink(worlds: seq<World>, ws: seq<World>, client: PubSub.Client, commands: seq<Command>,
                                   now: int, replies: seq<string>, rs: seq<string>, keys: set<string>, i: nat)
    requires Chain(worlds, client, commands, now, replies) && Chain(ws, client, commands, now, rs) && i < |commands|
    requires worlds[i].store == Purge(ws[i].store, keys, now) && Counts(commands[i])
    ensures replies[i] == rs[i] <==> !NamesStale(commands[i].args, ws[i].store, keys, now)
  {
    assert Link(worlds, client, commands, now, replies, i) && Link(ws, client, commands, now, rs, i);
    var c := commands[i];
    if c.args == [] {
      NoKeys(worlds[i], client, c, now, worlds[i + 1], replies[i]);
      NoKeys(ws[i], client, c, now, ws[i + 1], rs[i]);
    } else {
      DelReply(worlds[i], client, c, now, worlds[i + 1], replies[i]);
      DelReply(ws[i], client, c, now, ws[i + 1], rs[i]);
      DelRepliesExactly(worlds[i].store, ws[i].store, c, now, replies[i], rs[i], keys);
    }
  }

  lemma {:induction false} NoKeys(w: World, client: PubSub.Client, c: Command, now: int, w': World, reply: string)
    requires Counts(c) && c.args == [] && Performs(w, client, c, now, w', reply)
    ensures reply == WrongArguments("DEL")
  {
  }

  /** How EXEC and the direct run compare: the same subscriptions and live view
      from now on, the same replies but for the counts of DEL, and the same count
      exactly when no key it names was removed by the watch check. */
  ghost predicate Match(commands: seq<Command>, checked: set<string>, now: int,
                        w: World, replies: seq<string>, ws: seq<World>, rs: seq<string>)
  {
    && |ws| == |commands| + 1
    && w.subs == ws[|commands|].subs && w.store == Purge(ws[|commands|].store, checked, now)
    && Errors.SameFrom(w.store, ws[|commands|].store, now)
    && SameButCounts(commands, replies, rs)
    && forall i :: 0 <= i < |commands| && Counts(commands[i]) ==>
         (replies[i] == rs[i] <==> !NamesStale(commands[i].args, ws[i].store, checked, now))
  }

  lemma {:induction false} ChainsMatch(worlds: seq<World>, ws: seq<World>, client: PubSub.Client,
                                       commands: seq<Command>,
                                       now: int, replies: seq<string>, rs: seq<string>, checked: set<string>)
    requires Chain(worlds, client, commands, now, replies) && Chain(ws, client, commands, now, rs)
    requires worlds[0].store == Purge(ws[0].store, checked, now) && ListLaws.Invariant(ws[0].store)
    requires AllAlike(worlds, ws, now) && SameButCounts(commands, replies, rs)
    ensures Match(commands, checked, now, worlds[|commands|], replies, ws, rs)
  {
    var n := |commands|;
    PurgedChain(worlds, ws, client, commands, now, replies, rs, checked, n);
    assert Alike(worlds[n], ws[n], now);
    Errors.ViewsSame(worlds[n].store, ws[n].store, now);
    forall i | 0 <= i < n && Counts(commands[i])
      ensures replies[i] == rs[i] <==> !NamesStale(commands[i].args, ws[i].store, checked, now)
    {
      PurgedChain(worlds, ws, client, commands, now, replies, rs, checked, i);
      DelLink(worlds, ws, client, commands, now, replies, rs, checked, i);
    }
  }

  lemma {:induction false} CheckAlike(w: World, h: Session, now: int)
    requires ListLaws.Invariant(w.store)
    ensures Alike(AfterCheck(w, h, now), w, now) && Alike(w, AfterCheck(w, h, now), now)
  {
    PurgeKeeps(w.store, Checked(w.store, h.snapshots, now), now);
    CheckInvisible(w, h, now, now);
  }

  /**
   Whatever EXEC does in a world, the queued commands can do one by one in that
   same world, with matching results; they are a direct run exactly when none of
   them would be refused for being subscribed.
   */
  lemma {:induction false} ExecIsDirect(h: Session, g: Session, w: World, client: PubSub.Client, now: int,
                                        w': World, reply: string)
    returns (replies: seq<string>, ws: seq<World>, rs: seq<string>)
    requires Sound(h, w, client) && h.inMulti && !g.inMulti
    requires Execs(h, w, client, now, IDLE, w', reply) && reply != "(nil)"
    ensures reply == ExecReply(replies)
    ensures Chain(ws, client, h.queue, now, rs) && ws[0] == w
    ensures Match(h.queue, Checked(w.store, h.snapshots, now), now, w', replies, ws, rs)
    ensures Direct(g, ws, client, h.queue, now, rs) <==> Permitted(ws, client, h.queue)
  {
    var start := AfterCheck(w, h, now);
    ExecDecides(h, w, client, now, IDLE, w', reply);
    var worlds;
    worlds, replies :| Chain(worlds, client, h.queue, now, replies)
      && worlds[0] == start && worlds[|h.queue|] == w' && reply == ExecReply(replies);
    CheckAlike(w, h, now);
    ws, rs := ChainAlike(worlds, client, h.queue, now, replies, w);
    ChainsMatch(worlds, ws, client, h.queue, now, replies, rs, Checked(w.store, h.snapshots, now));
    DirectExactly(g, ws, client, h.queue, now, rs);
  }

  /** Whatever the queued commands do one by one without a refusal, EXEC can do,
      with matching results, if it runs the queue at all. */
  lemma {:induction false} DirectIsExec(h: Session, g: Session, client: PubSub.Client, now: int,
                                        ws: seq<World>, rs: seq<string>)
    returns (w': World, replies: seq<string>)
    requires !g.inMulti && Direct(g, ws, client, h.queue, now, rs) && Permitted(ws, client, h.queue)
    requires Sound(h, ws[0], client) && h.inMulti && AllAsRecorded(ws[0].store, h.snapshots, now)
    ensures Execs(h, ws[0], client, now, IDLE, w', ExecReply(replies))
    ensures Match(h.queue, Checked(ws[0].store, h.snapshots, now), now, w', replies, ws, rs)
  {
    var start := AfterCheck(ws[0], h, now);
    DirectIsChain(g, ws, client, h.queue, now, rs);
    CheckAlike(ws[0], h, now);
    var worlds;
    worlds, replies := ChainAlike(ws, client, h.queue, now, rs, start);
    SymmetricAlike(ws, worlds, now);
    SymmetricSame(h.queue, rs, replies);
    ChainsMatch(worlds, ws, client, h.queue, now, replies, rs, Checked(ws[0].store, h.snapshots, now));
    w' := worlds[|h.queue|];
  }

  lemma {:induction false} SymmetricAlike(a: seq<World>, b: seq<World>, now: int)
    requires AllAlike(a, b, now)
    ensures AllAlike(b, a, now)
  {
    forall i | 0 <= i < |a| ensures Alike(b[i], a[i], now) {
      assert Alike(a[i], b[i], now);
    }
  }

  lemma {:induction false} SymmetricSame(commands: seq<Command>, a: seq<string>, b: seq<string>)
    requires SameButCounts(commands, a, b)
    ensures SameButCounts(commands, b, a)
  {
  }

  // ---------------------------------------------------------------------
  // Inputs
  // ---------------------------------------------------------------------

  /** A key that has expired and is still stored. */
  const UNSWEPT := Store(map["k" := "v"], map[], map["k" := 0])

  /** A session that watches it and has one command in its queue. */
  function Watching(c: Command): Session {
    Session(true, [c], ["k"], [Snapshot("k", true, None, 0)])
  }

  lemma {:induction false} UnsweptLook()
    ensures ListLaws.Invariant(UNSWEPT) && Look(UNSWEPT, "k", 1) == SeenLength(0)
    ensures Purge(UNSWEPT, {"k"}, 1) == EMPTY && Without(UNSWEPT, {"k"}) == EMPTY && Without(EMPTY, {"k"}) == EMPTY
    ensures {"k"} * Stored(UNSWEPT) == {"k"} && {"k"} * Stored(EMPTY) == {}
  {
  }

  lemma {:induction false} WatchingSound(client: PubSub.Client, c: Command)
    requires !Steers(c)
    ensures Sound(Watching(c), World(UNSWEPT, {}), client) && AllAsRecorded(UNSWEPT, Watching(c).snapshots, 1)
    ensures AfterCheck(World(UNSWEPT, {}), Watching(c), 1) == World(EMPTY, {})
  {
    UnsweptLook();
    assert Checked(UNSWEPT, Watching(c).snapshots, 1) == {"k"} by {
      assert Watching(c).snapshots[1..] == [];
    }
  }

  predicate DeletesK(c: Command) {
    VerbOf(c.name) == DEL && c.args == ["k"]
  }

  lemma {:induction false} DelOfK(s: Store, n: nat)
    requires Without(s, {"k"}) == EMPTY && |{"k"} * Stored(s)| == n
    ensures Apply(s, Del(["k"]), 1) == EMPTY && AnswerTo(s, Del(["k"]), 1) == Count(n)
  {
    assert Elements(["k"]) == {"k"} by { assert "k" in ["k"]; }
  }

  lemma {:induction false} UnsweptDel()
    ensures Apply(EMPTY, Del(["k"]), 1) == EMPTY && AnswerTo(EMPTY, Del(["k"]), 1) == Count(0)
    ensures Apply(UNSWEPT, Del(["k"]), 1) == EMPTY && AnswerTo(UNSWEPT, Del(["k"]), 1) == Count(1)
  {
    UnsweptLook();
    DelOfK(EMPTY, 0);
    DelOfK(UNSWEPT, 1);
  }

  lemma {:induction false} AskPerforms(s: Store, client: PubSub.Client, c: Command, op: Op, now: int, reply: string)
    requires Route(c) == Ask(op) && Replies(s, op, now, reply)
    ensures Performs(World(s, {}), client, c, now, World(Apply(s, op, now), {}), reply)
  {
    Errors.OneOp(s, op, now);
  }

  lemma {:induction false} DelPerforms(s: Store, client: PubSub.Client, c: Command, n: nat)
    requires DeletesK(c) && Apply(s, Del(["k"]), 1) == EMPTY && AnswerTo(s, Del(["k"]), 1) == Count(n)
    ensures Performs(World(s, {}), client, c, 1, World(EMPTY, {}), Show(Integer(n)))
  {
    DelRoute(c);
    AskPerforms(s, client, c, Del(["k"]), 1, Show(Integer(n)));
  }

  lemma {:induction false} DelRoute(c: Command)
    requires DeletesK(c)
    ensures Route(c) == Ask(Del(["k"]))
  {
  }

  lemma {:induction false} OneCommandRuns(w: World, client: PubSub.Client, c: Command, now: int, w': World,
                                          reply: string)
    requires Performs(w, client, c, now, w', reply)
    ensures RunsQueue(w, client, [c], now, w', ExecReply([reply]))
  {
    assert Link([w, w'], client, [c], now, [reply], 0);
    assert Chain([w, w'], client, [c], now, [reply]);
  }

  /** DEL of an expired key that is on watch: EXEC counts 0, the direct DEL counts 1. */
  lemma {:induction false} DelCountsInExec(client: PubSub.Client, c: Command)
    requires DeletesK(c)
    ensures Sound(Watching(c), World(UNSWEPT, {}), client)
    ensures Execs(Watching(c), World(UNSWEPT, {}), client, 1, IDLE, World(EMPTY, {}), ExecReply([Show(Integer(0))]))
    ensures Executes(IDLE, World(UNSWEPT, {}), client, c, 1, IDLE, World(EMPTY, {}), Show(Integer(1)))
  {
    WatchingSound(client, c);
    UnsweptDel();
    DelPerforms(EMPTY, client, c, 0);
    DelPerforms(UNSWEPT, client, c, 1);
    OneCommandRuns(World(EMPTY, {}), client, c, 1, World(EMPTY, {}), Show(Integer(0)));
    DirectStep(IDLE, World(UNSWEPT, {}), client, c, 1, World(EMPTY, {}), Show(Integer(1)));
  }

  lemma {:induction false} DelInput()
    ensures DeletesK(Command("DEL", ["k"]))
  {
  }

  lemma {:induction false} SubscribePerforms(client: PubSub.Client)
    ensures
      var c := Command("SUBSCRIBE", ["a"]);
      Performs(World(EMPTY, {}), client, c, 0, World(EMPTY, {(client, "a")}),
               NoticeLines("subscribe ", PubSub.JoinNotices({}, client, ["a"])))
  {
    assert VerbOf("SUBSCRIBE") == SUBSCRIBE;
    assert ["a"][..0] == [];
    assert PubSub.Joined({}, client, ["a"]) == {(client, "a")};
  }

  lemma {:induction false} GetPerforms(client: PubSub.Client)
    ensures
      var w := World(EMPTY, {(client, "a")});
      Performs(w, client, Command("GET", ["k"]), 0, w, "(nil)") &&
        Performs(w, client, Command("PING", []), 0, w, "PONG")
  {
    assert VerbOf("GET") == GET && VerbOf("PING") == PING;
    Errors.OneOp(EMPTY, Get("k"), 0);
    assert Purge(EMPTY, {"k"}, 0) == EMPTY;
  }

  /** With SUBSCRIBE in the queue: EXEC goes on to answer a GET, which a client
      that sends them one by one is refused; a PING is answered to both. */
  lemma {:induction false} SubscribeInput(h: Session, client: PubSub.Client)
    returns (worlds: seq<World>, got: seq<string>, ponged: seq<string>)
    requires !h.inMulti
    ensures |worlds| == 3 && worlds[0] == World(EMPTY, {})
    ensures
      var queue := [Command("SUBSCRIBE", ["a"]), Command("GET", ["k"])];
      Chain(worlds, client, queue, 0, got) && !Direct(h, worlds, client, queue, 0, got)
    ensures
      var queue := [Command("SUBSCRIBE", ["a"]), Command("PING", [])];
      Chain(worlds, client, queue, 0, ponged) && Direct(h, worlds, client, queue, 0, ponged)
  {
    var first := NoticeLines("subscribe ", PubSub.JoinNotices({}, client, ["a"]));
    var after := World(EMPTY, {(client, "a")});
    worlds, got, ponged := [World(EMPTY, {}), after, after], [first, "(nil)"], [first, "PONG"];
    SubscribePerforms(client);
    GetPerforms(client);
    var s, g, p := Command("SUBSCRIBE", ["a"]), Command("GET", ["k"]), Command("PING", []);
    VerbsOf();
    assert (client, "a") in after.subs;
    TwoLinks(worlds, client, s, g, got);
    TwoLinks(worlds, client, s, p, ponged);
    SecondDecides(h, worlds, client, s, g, got);
    SecondDecides(h, worlds, client, s, p, ponged);
  }

  lemma {:induction false} SecondDecides(h: Session, worlds: seq<World>, client: PubSub.Client, c: Command, d: Command,
                                         replies: seq<string>)
    requires !h.inMulti && !Steers(c) && !Steers(d) && Chain(worlds, client, [c, d], 0, replies)
    requires WhileSubscribed(c) && Subscribed(worlds[1].subs, client)
    ensures Direct(h, worlds, client, [c, d], 0, replies) <==> WhileSubscribed(d)
  {
    DirectExactly(h, worlds, client, [c, d], 0, replies);
    assert Allowed(worlds[1], client, [c, d][1]) <==> WhileSubscribed(d);
  }

  lemma {:induction false} VerbsOf()
    ensures VerbOf("SUBSCRIBE") == SUBSCRIBE && VerbOf("GET") == GET && VerbOf("PING") == PING
  {
  }

  lemma {:induction false} TwoLinks(worlds: seq<World>, client: PubSub.Client, c: Command, d: Command,
                                    replies: seq<string>)
    requires |worlds| == 3 && |replies| == 2
    requires Performs(worlds[0], client, c, 0, worlds[1], replies[0])
    requires Performs(worlds[1], client, d, 0, worlds[2], replies[1])
    ensures Chain(worlds, client, [c, d], 0, replies)
  {
    forall i | 0 <= i < 2 ensures Link(worlds, client, [c, d], 0, replies, i) {
    }
  }
}
