/**
 The `CommandHandler` object of one client, over a database and a subscription
 manager that it shares with others.

 Every method is proved against the relations of `Commands` and `Transactions`.
 `now` is the clock reading of the call.
 */
module Handler {
  import opened Base
  import opened Store
  import opened Numbering
  import opened Parser
  import opened RoundTrip
  import opened Commands
  import opened Transactions
  import Client
  import Database
  import ListReply
  import PubSub
  import Relation
  import Text

  /** What the world decides while a command runs. */
  datatype Chance = Chance(reachable: PubSub.Client -> bool, saved: bool, banner: string)

  /** The quoted lines of LRANGE and KEYS. */
  method ShowStrings(strings: seq<string>) returns (text: string)
    ensures text == Show(List(ListReply.Quotes(strings)))
  {
    if strings == [] { return "(empty list)"; }
    var texts := [];
    for i := 0 to |strings|
      invariant |texts| == i && forall k :: 0 <= k < i ==> texts[k] == Client.Quoted(strings[k])
    {
      texts := texts + [Client.Quoted(strings[i])];
    }
    ListReply.QuotesShown(strings);
    assert texts == Shows(ListReply.Quotes(strings));
    text := NumberLines(texts);
  }

  method ShowNotices(word: string, notices: seq<PubSub.Notice>) returns (text: string)
    ensures text == NoticeLines(word, notices)
  {
    text := "";
    for i := 0 to |notices|
      invariant text + NoticeLines(word, notices[i..]) == NoticeLines(word, notices)
    {
      var rest := notices[i..];
      assert rest[1..] == notices[i + 1..];
      NoticeStep(text, word, rest);
      text := text + (word + notices[i].channel + " " + Text.ToString(notices[i].count));
      if i + 1 < |notices| {
        text := text + "\n";
      }
    }
    assert text + "" == text;
  }

  lemma {:induction false} NoticeStep(text: string, word: string, rest: seq<PubSub.Notice>)
    requires rest != []
    ensures
      var line := word + rest[0].channel + " " + Text.ToString(rest[0].count);
      text + NoticeLines(word, rest) ==
        if |rest| == 1 then text + line + NoticeLines(word, rest[1..])
        else text + line + "\n" + NoticeLines(word, rest[1..])
  {
    var line := word + rest[0].channel + " " + Text.ToString(rest[0].count);
    var more := NoticeLines(word, rest[1..]);
    if |rest| == 1 {
      assert more == "" && text + (line + "") == text + line + "";
    } else {
      assert text + (line + ("\n" + more)) == text + line + "\n" + more;
    }
  }

  /** An optional text, as GET, LPOP, RPOP and LINDEX show it. */
  function ShowOption(value: Option<string>): string {
    if value.None? then "(nil)" else Client.Quoted(value.value)
  }

  function ShowSize(size: int): string {
    if size == -1 then WRONGTYPE else ShowCount(size)
  }

  function ShowCount(count: int): string {
    "(integer) " + Text.ToString(count)
  }

  class CommandHandler {
    const db: Database.Database
    const pubsub: PubSub.PubSubManager
    const client: PubSub.Client
    var inMulti: bool
    var txQueue: seq<Command>
    var watchedKeys: seq<string>
    var watchSnapshots: seq<Snapshot>

    ghost function State(): Session
      reads this
    {
      Session(inMulti, txQueue, watchedKeys, watchSnapshots)
    }

    ghost function Around(): World
      reads db, pubsub
    {
      World(db.State(), pubsub.Subs())
    }

    ghost predicate Valid()
      reads this, pubsub
    {
      pubsub.Valid() && WellFormed(State())
    }

    constructor (db: Database.Database, pubsub: PubSub.PubSubManager, client: PubSub.Client)
      requires pubsub.Valid()
      ensures Valid() && State() == IDLE
      ensures this.db == db && this.pubsub == pubsub && this.client == client
    {
      this.db, this.pubsub, this.client := db, pubsub, client;
      inMulti, txQueue, watchedKeys, watchSnapshots := false, [], [], [];
    }

    // -------------------------------------------------------------------
    // Single commands
    // -------------------------------------------------------------------

    method HandleSet(args: seq<string>, now: int) returns (reply: string)
      modifies db
      ensures Does(old(Around()), client, RouteSet(args), now, Around(), reply)
    {
      ghost var w := Around();
      if |args| < 2 { return WrongArguments("SET"); }
      db.Set(args[0], args[1], now);
      Wrote(w, client, args[0], args[1], None, now, Around());
      if |args| >= 4 {
        if Text.Upper(args[2]) == "EX" {
          var seconds := Text.Stoi(args[3]);
          if seconds.None? { return NOT_AN_INTEGER; }
          if seconds.value <= 0 { return BadExpiry("SET"); }
          var _ := db.Expire(args[0], seconds.value, now);
          Wrote(w, client, args[0], args[1], seconds, now, Around());
        }
      }
      return "OK";
    }

    method HandleGet(args: seq<string>, now: int) returns (reply: string)
      modifies db
      ensures Does(old(Around()), client, RouteGet(args), now, Around(), reply)
    {
      if |args| != 1 { return WrongArguments("GET"); }
      var value := db.Get(args[0], now);
      reply := ShowOption(value);
      Asked(old(Around()), client, Get(args[0]), now, Around(), reply);
    }

    method HandleDel(args: seq<string>, now: int) returns (reply: string)
      modifies db
      ensures Does(old(Around()), client, RouteDel(args), now, Around(), reply)
    {
      if args == [] { return WrongArguments("DEL"); }
      var count := db.Del(args, now);
      reply := ShowCount(count);
      CountShown(old(Around()).store, Del(args), now, count);
      Asked(old(Around()), client, Del(args), now, Around(), reply);
    }

    method HandleExists(args: seq<string>, now: int) returns (reply: string)
      modifies db
      ensures Does(old(Around()), client, RouteExists(args), now, Around(), reply)
    {
      if args == [] { return WrongArguments("EXISTS"); }
      var count := db.Exists(args, now);
      reply := ShowCount(count);
      Asked(old(Around()), client, Exists(args), now, Around(), reply);
    }

    method HandleKeys(now: int) returns (reply: string)
      modifies db
      ensures Does(old(Around()), client, Ask(Keys), now, Around(), reply)
    {
      var names := db.Keys(now);
      reply := ShowStrings(names);
      assert Ordering(names, old(Around()).store, now);
      Asked(old(Around()), client, Keys, now, Around(), reply);
    }

    method HandleDbSize(now: int) returns (reply: string)
      modifies db
      ensures Does(old(Around()), client, Ask(DbSize), now, Around(), reply)
    {
      var count := db.DbSize(now);
      reply := ShowCount(count);
      Asked(old(Around()), client, DbSize, now, Around(), reply);
    }

    method HandleFlushDb(now: int) returns (reply: string)
      modifies db
      ensures Does(old(Around()), client, Ask(FlushDb), now, Around(), reply)
    {
      db.FlushDb(now);
      reply := "OK";
      Asked(old(Around()), client, FlushDb, now, Around(), reply);
    }

    method HandleExpire(args: seq<string>, now: int) returns (reply: string)
      modifies db
      ensures Does(old(Around()), client, RouteExpire(args), now, Around(), reply)
    {
      if |args| != 2 { return WrongArguments("EXPIRE"); }
      var seconds := Text.Stoi(args[1]);
      if seconds.None? { return NOT_AN_INTEGER; }
      if seconds.value <= 0 { return BadExpiry("EXPIRE"); }
      var done := db.Expire(args[0], seconds.value, now);
      reply := ShowCount(if done then 1 else 0);
      Asked(old(Around()), client, Expire(args[0], seconds.value), now, Around(), reply);
    }

    method HandleTtl(args: seq<string>, now: int) returns (reply: string)
      modifies db
      ensures Does(old(Around()), client, RouteTtl(args), now, Around(), reply)
    {
      if |args| != 1 { return WrongArguments("TTL"); }
      var seconds := db.Ttl(args[0], now);
      reply := ShowCount(seconds);
      Asked(old(Around()), client, Ttl(args[0]), now, Around(), reply);
    }

    method HandlePersist(args: seq<string>, now: int) returns (reply: string)
      modifies db
      ensures Does(old(Around()), client, RoutePersist(args), now, Around(), reply)
    {
      if |args| != 1 { return WrongArguments("PERSIST"); }
      var done := db.Persist(args[0], now);
      reply := ShowCount(if done then 1 else 0);
      Asked(old(Around()), client, Persist(args[0]), now, Around(), reply);
    }

    method HandleLPush(args: seq<string>, now: int) returns (reply: string)
      modifies db
      ensures Does(old(Around()), client, RouteLPush(args), now, Around(), reply)
    {
      if |args| < 2 { return WrongArguments("LPUSH"); }
      var size := db.LPush(args[0], args[1..], now);
      reply := ShowSize(size);
      Asked(old(Around()), client, LPush(args[0], args[1..]), now, Around(), reply);
    }

    method HandleRPush(args: seq<string>, now: int) returns (reply: string)
      modifies db
      ensures Does(old(Around()), client, RouteRPush(args), now, Around(), reply)
    {
      if |args| < 2 { return WrongArguments("RPUSH"); }
      var size := db.RPush(args[0], args[1..], now);
      reply := ShowSize(size);
      Asked(old(Around()), client, RPush(args[0], args[1..]), now, Around(), reply);
    }

    method HandleLPop(args: seq<string>, now: int) returns (reply: string)
      modifies db
      ensures Does(old(Around()), client, RouteLPop(args), now, Around(), reply)
    {
      if |args| != 1 { return WrongArguments("LPOP"); }
      var value := db.LPop(args[0], now);
      reply := ShowOption(value);
      Asked(old(Around()), client, LPop(args[0]), now, Around(), reply);
    }

    method HandleRPop(args: seq<string>, now: int) returns (reply: string)
      modifies db
      ensures Does(old(Around()), client, RouteRPop(args), now, Around(), reply)
    {
      if |args| != 1 { return WrongArguments("RPOP"); }
      var value := db.RPop(args[0], now);
      reply := ShowOption(value);
      Asked(old(Around()), client, RPop(args[0]), now, Around(), reply);
    }

    method HandleLRange(args: seq<string>, now: int) returns (reply: string)
      modifies db
      ensures Does(old(Around()), client, RouteLRange(args), now, Around(), reply)
    {
      if |args| != 3 { return WrongArguments("LRANGE"); }
      var start := Text.Stoi(args[1]);
      if start.None? { return NOT_AN_INTEGER; }
      var stop := Text.Stoi(args[2]);
      if stop.None? { return NOT_AN_INTEGER; }
      var items := db.LRange(args[0], start.value, stop.value, now);
      reply := ShowStrings(items);
      Asked(old(Around()), client, LRange(args[0], start.value, stop.value), now, Around(), reply);
    }

    method HandleLLen(args: seq<string>, now: int) returns (reply: string)
      modifies db
      ensures Does(old(Around()), client, RouteLLen(args), now, Around(), reply)
    {
      if |args| != 1 { return WrongArguments("LLEN"); }
      var size := db.LLen(args[0], now);
      reply := ShowSize(size);
      Asked(old(Around()), client, LLen(args[0]), now, Around(), reply);
    }

    method HandleLIndex(args: seq<string>, now: int) returns (reply: string)
      modifies db
      ensures Does(old(Around()), client, RouteLIndex(args), now, Around(), reply)
    {
      if |args| != 2 { return WrongArguments("LINDEX"); }
      var index := Text.Stoi(args[1]);
      if index.None? { return NOT_AN_INTEGER; }
      var value := db.LIndex(args[0], index.value, now);
      reply := ShowOption(value);
      Asked(old(Around()), client, LIndex(args[0], index.value), now, Around(), reply);
    }

    method HandleSubscribe(args: seq<string>, now: int) returns (reply: string)
      requires pubsub.Valid()
      modifies pubsub
      ensures pubsub.Valid() && Does(old(Around()), client, RouteSubscribe(args), now, Around(), reply)
    {
      if args == [] { return WrongArguments("SUBSCRIBE"); }
      var results := pubsub.Subscribe(client, args);
      reply := ShowNotices("subscribe ", results);
    }

    method HandleUnsubscribe(args: seq<string>, now: int) returns (reply: string)
      requires pubsub.Valid()
      modifies pubsub
      ensures pubsub.Valid() && Does(old(Around()), client, Leave(args), now, Around(), reply)
    {
      var results;
      ghost var targets;
      results, targets := pubsub.Unsubscribe(client, args);
      reply := ShowNotices("unsubscribe ", results);
      assert Leaves(old(Around()).subs, client, args, targets);
    }

    method HandlePublish(args: seq<string>, now: int, reachable: PubSub.Client -> bool) returns (reply: string)
      requires pubsub.Valid()
      modifies pubsub
      ensures pubsub.Valid() && Does(old(Around()), client, RoutePublish(args), now, Around(), reply)
    {
      if |args| != 2 { return WrongArguments("PUBLISH"); }
      var receivers, sent;
      ghost var order;
      receivers, sent, order := pubsub.Publish(args[0], args[1], reachable);
      reply := ShowCount(receivers);
    }

    method HandleInfo(now: int, banner: string) returns (reply: string)
      modifies db
      ensures Does(old(Around()), client, Info, now, Around(), reply)
    {
      var count := db.DbSize(now);
      reply := banner + ("\n# Keyspace\ndb0:keys=" + Text.ToString(count) + "\n");
    }

    method ExecuteSingle(cmd: Command, now: int, chance: Chance) returns (reply: string)
      requires pubsub.Valid()
      modifies db, pubsub
      ensures pubsub.Valid() && Performs(old(Around()), client, cmd, now, Around(), reply)
    {
      match VerbOf(cmd.name) {
        case PING => reply := if cmd.args == [] then "PONG" else cmd.args[0];
        case SET => reply := HandleSet(cmd.args, now);
        case GET => reply := HandleGet(cmd.args, now);
        case DEL => reply := HandleDel(cmd.args, now);
        case EXISTS => reply := HandleExists(cmd.args, now);
        case KEYS => reply := HandleKeys(now);
        case DBSIZE => reply := HandleDbSize(now);
        case FLUSHDB => reply := HandleFlushDb(now);
        case EXPIRE => reply := HandleExpire(cmd.args, now);
        case TTL => reply := HandleTtl(cmd.args, now);
        case PERSIST => reply := HandlePersist(cmd.args, now);
        case SAVE => reply := if chance.saved then "OK" else SAVE_FAILED;
        case LPUSH => reply := HandleLPush(cmd.args, now);
        case RPUSH => reply := HandleRPush(cmd.args, now);
        case LPOP => reply := HandleLPop(cmd.args, now);
        case RPOP => reply := HandleRPop(cmd.args, now);
        case LRANGE => reply := HandleLRange(cmd.args, now);
        case LLEN => reply := HandleLLen(cmd.args, now);
        case LINDEX => reply := HandleLIndex(cmd.args, now);
        case SUBSCRIBE => reply := HandleSubscribe(cmd.args, now);
        case UNSUBSCRIBE => reply := HandleUnsubscribe(cmd.args, now);
        case PUBLISH => reply := HandlePublish(cmd.args, now, chance.reachable);
        case CONFIG => reply := ConfigReply(cmd.args);
        case INFO => reply := HandleInfo(now, chance.banner);
        case _ => reply := Unknown(cmd.name);
      }
    }

    // -------------------------------------------------------------------
    // Transactions
    // -------------------------------------------------------------------

    method TakeSnapshot(key: string, now: int) returns (snap: Snapshot)
      modifies db
      ensures db.State() == Purge(old(db.State()), {key}, now)
      ensures snap == Record(key, Look(old(db.State()), key, now))
    {
      var val := db.Get(key, now);
      if val.Some? {
        snap := Snapshot(key, true, val, -1);
      } else {
        PurgeTwice(old(db.State()), key, now);
        var llen := db.LLen(key, now);
        if llen >= 0 {
          snap := Snapshot(key, true, None, llen);
        } else {
          snap := Snapshot(key, false, None, -1);
        }
      }
    }

    method HandleWatch(cmd: Command, now: int) returns (reply: string)
      requires Valid()
      modifies this, db
      ensures Watches(old(State()), old(Around()), cmd, now, State(), Around(), reply)
    {
      if cmd.args == [] { return WrongArguments("WATCH"); }
      if inMulti { return WATCH_IN_MULTI; }
      ghost var s := db.State();
      Database.PurgeNone(s, now);
      for i := 0 to |cmd.args|
        invariant unchanged(this`inMulti) && unchanged(this`txQueue) && pubsub.Subs() == old(pubsub.Subs())
        invariant db.State() == Purge(s, Elements(cmd.args[..i]), now)
        invariant watchedKeys == old(watchedKeys) + cmd.args[..i]
        invariant watchSnapshots == old(watchSnapshots) + Records(s, cmd.args[..i], now)
      {
        var key := cmd.args[i];
        WatchMore(s, cmd.args, i, now);
        watchedKeys := watchedKeys + [key];
        var snap := TakeSnapshot(key, now);
        watchSnapshots := watchSnapshots + [snap];
      }
      assert cmd.args[..|cmd.args|] == cmd.args;
      return "OK";
    }

    method IsModified(snap: Snapshot, now: int) returns (modified: bool)
      modifies db
      ensures db.State() == Purge(old(db.State()), {snap.key}, now)
      ensures modified == Differs(old(db.State()), snap, now)
    {
      var val := db.Get(snap.key, now);
      PurgeTwice(old(db.State()), snap.key, now);
      modified := false;
      if snap.existed {
        if snap.text.Some? {
          if val.None? || val.value != snap.text.value { return true; }
        } else if snap.listSize >= 0 {
          var llen := db.LLen(snap.key, now);
          if llen != snap.listSize { return true; }
        }
      } else {
        if val.Some? { return true; }
        var llen := db.LLen(snap.key, now);
        if llen >= 0 { return true; }
      }
    }

    method WatchedKeysModified(now: int) returns (modified: bool)
      requires Valid()
      modifies db
      ensures modified == !AllAsRecorded(old(db.State()), watchSnapshots, now)
      ensures db.State() == Purge(old(db.State()), Checked(old(db.State()), watchSnapshots, now), now)
    {
      ghost var s := db.State();
      ghost var seen: set<string> := {};
      Database.PurgeNone(s, now);
      for i := 0 to |watchSnapshots|
        invariant db.State() == Purge(s, seen, now)
        invariant Checked(s, watchSnapshots, now) == seen + Checked(s, watchSnapshots[i..], now)
        invariant AllAsRecorded(s, watchSnapshots, now) == AllAsRecorded(s, watchSnapshots[i..], now)
      {
        var snap := watchSnapshots[i];
        CheckMore(s, watchSnapshots, i, seen, now);
        seen := seen + {snap.key};
        DiffersExactly(db.State(), snap, now);
        var differs := IsModified(snap, now);
        if differs {
          return true;
        }
      }
      return false;
    }

    method HandleExec(now: int, chance: nat -> Chance) returns (reply: string)
      requires Valid()
      modifies this, db, pubsub
      ensures pubsub.Valid()
      ensures Execs(old(State()), old(Around()), client, now, State(), Around(), reply)
    {
      if !inMulti { return NO_MULTI_TO_EXEC; }
      ghost var h, w := State(), Around();
      var modified := false;
      if watchedKeys != [] {
        modified := WatchedKeysModified(now);
      } else {
        Database.PurgeNone(w.store, now);
      }
      if modified {
        Clear();
        return "(nil)";
      }
      var replies;
      ghost var worlds;
      replies, worlds := RunQueue(now, chance);
      if txQueue == [] {
        reply := "(empty list)";
      } else {
        reply := NumberLines(replies);
      }
      assert Chain(worlds, client, h.queue, now, replies);
      Clear();
    }

    method Clear()
      modifies this
      ensures State() == IDLE
    {
      inMulti := false;
      txQueue := [];
      watchedKeys := [];
      watchSnapshots := [];
    }

    method RunQueue(now: int, chance: nat -> Chance) returns (replies: seq<string>, ghost worlds: seq<World>)
      requires pubsub.Valid()
      modifies db, pubsub
      ensures pubsub.Valid()
      ensures Chain(worlds, client, txQueue, now, replies)
      ensures worlds[0] == old(Around()) && worlds[|txQueue|] == Around()
    {
      replies, worlds := [], [Around()];
      for i := 0 to |txQueue|
        invariant pubsub.Valid()
        invariant Chain(worlds, client, txQueue[..i], now, replies)
        invariant worlds[0] == old(Around()) && worlds[i] == Around()
      {
        ghost var w := Around();
        var result := ExecuteSingle(txQueue[i], now, chance(i));
        ChainMore(worlds, client, txQueue[..i], now, replies, txQueue[i], Around(), result);
        assert txQueue[..i + 1] == txQueue[..i] + [txQueue[i]];
        replies := replies + [result];
        worlds := worlds + [Around()];
      }
      assert txQueue[..|txQueue|] == txQueue;
    }

    method HandleMulti() returns (reply: string)
      modifies this
      ensures if old(inMulti) then State() == old(State()) && reply == NESTED
              else State() == old(State()).(inMulti := true, queue := []) && reply == "OK"
    {
      if inMulti { return NESTED; }
      inMulti := true;
      txQueue := [];
      return "OK";
    }

    method HandleDiscard() returns (reply: string)
      modifies this
      ensures if !old(inMulti) then State() == old(State()) && reply == NO_MULTI_TO_DISCARD
              else State() == old(State()).(inMulti := false, queue := []) && reply == "OK"
    {
      if !inMulti { return NO_MULTI_TO_DISCARD; }
      inMulti := false;
      txQueue := [];
      return "OK";
    }

    /** The steering commands are never queued. */
    method Steer(cmd: Command, now: int, chance: nat -> Chance) returns (reply: string)
      requires Valid() && Steers(cmd)
      modifies this, db, pubsub
      ensures pubsub.Valid()
      ensures Directs(old(State()), old(Around()), client, cmd, now, State(), Around(), reply)
    {
      match VerbOf(cmd.name) {
        case MULTI => reply := HandleMulti();
        case EXEC => reply := HandleExec(now, chance);
        case DISCARD => reply := HandleDiscard();
        case WATCH => reply := HandleWatch(cmd, now);
      }
    }

    /** Subscription mode comes first, then the steering commands, then the queue. */
    method Execute(cmd: Command, now: int, chance: nat -> Chance) returns (reply: string)
      requires Valid()
      modifies this, db, pubsub
      ensures Valid()
      ensures Executes(old(State()), old(Around()), client, cmd, now, State(), Around(), reply)
    {
      reply := Dispatch(cmd, now, chance);
      StepKeepsForm(old(State()), old(Around()), client, cmd, now, State(), Around(), reply);
    }

    method Dispatch(cmd: Command, now: int, chance: nat -> Chance) returns (reply: string)
      requires Valid()
      modifies this, db, pubsub
      ensures pubsub.Valid()
      ensures Executes(old(State()), old(Around()), client, cmd, now, State(), Around(), reply)
    {
      InMode(pubsub.clientChannels, client);
      if pubsub.IsSubscribed(client) {
        if !WhileSubscribed(cmd) { return Refusal(cmd.name); }
      }
      if Steers(cmd) {
        reply := Steer(cmd, now, chance);
        return;
      }
      if inMulti {
        txQueue := txQueue + [cmd];
        return "QUEUED";
      }
      reply := ExecuteSingle(cmd, now, chance(0));
    }
  }

  lemma {:induction false} InMode(clients: map<PubSub.Client, set<string>>, client: PubSub.Client)
    ensures client in clients && clients[client] != {} <==> Subscribed(Relation.Pairs(clients), client)
  {
    var subs := Relation.Pairs(clients);
    PubSub.SubscribedIs(clients, client);
    if Subscribed(subs, client) {
      var p :| p in subs && p.0 == client;
      assert p.1 in PubSub.Of(subs, client);
    } else {
      assert PubSub.Of(subs, client) == {};
    }
  }

  lemma {:induction false} PurgeTwice(s: Store, key: string, now: int)
    ensures Purge(Purge(s, {key}, now), {key}, now) == Purge(s, {key}, now)
  {
    Database.PurgeMore(s, {key}, key, now);
  }

  lemma {:induction false} LookPurged(s: Store, keys: set<string>, key: string, now: int)
    ensures Look(Purge(s, keys, now), key, now) == Look(s, key, now)
  {
  }

  lemma {:induction false} RecordsSnoc(s: Store, keys: seq<string>, key: string, now: int)
    ensures Records(s, keys + [key], now) == Records(s, keys, now) + [Record(key, Look(s, key, now))]
    decreases |keys|
  {
    if keys == [] {
      assert keys + [key] == [key];
    } else {
      assert (keys + [key])[1..] == keys[1..] + [key];
      RecordsSnoc(s, keys[1..], key, now);
    }
  }

  lemma {:induction false} WatchMore(s: Store, keys: seq<string>, i: nat, now: int)
    requires i < |keys|
    ensures
      var p := Purge(s, Elements(keys[..i]), now);
      && Purge(p, {keys[i]}, now) == Purge(s, Elements(keys[..i + 1]), now)
      && Records(s, keys[..i + 1], now) == Records(s, keys[..i], now) + [Record(keys[i], Look(p, keys[i], now))]
  {
    ElementsUpTo(keys, i);
    Database.PurgeMore(s, Elements(keys[..i]), keys[i], now);
    LookPurged(s, Elements(keys[..i]), keys[i], now);
    RecordsSnoc(s, keys[..i], keys[i], now);
    assert keys[..i + 1] == keys[..i] + [keys[i]];
  }

  lemma {:induction false} CheckMore(s: Store, snaps: seq<Snapshot>, i: nat, seen: set<string>, now: int)
    requires i < |snaps|
    ensures
      var p, snap, more := Purge(s, seen, now), snaps[i], seen + {snaps[i].key};
      && Purge(p, {snap.key}, now) == Purge(s, more, now)
      && AsRecorded(p, snap, now) == AsRecorded(s, snap, now)
      && seen + Checked(s, snaps[i..], now) ==
        (if AsRecorded(s, snap, now) then more + Checked(s, snaps[i + 1..], now) else more)
      && (AllAsRecorded(s, snaps[i..], now) <==> AsRecorded(s, snap, now) && AllAsRecorded(s, snaps[i + 1..], now))
  {
    Database.PurgeMore(s, seen, snaps[i].key, now);
    LookPurged(s, seen, snaps[i].key, now);
    var rest, tail := snaps[i..], snaps[i + 1..];
    assert rest[0] == snaps[i] && rest[1..] == tail;
    assert rest == [snaps[i]] + tail;
  }

  lemma {:induction false} CountShown(s: Store, op: Op, now: int, count: int)
    requires op.Del? && AnswerTo(s, op, now) == Count(count)
    ensures Replies(s, op, now, ShowCount(count))
  {
  }

  lemma {:induction false} Asked(w: World, client: PubSub.Client, op: Op, now: int, w': World, reply: string)
    requires w'.store == Apply(w.store, op, now) && w'.subs == w.subs && Replies(w.store, op, now, reply)
    ensures Does(w, client, Ask(op), now, w', reply)
  {
  }

  lemma {:induction false} Wrote(w: World, client: PubSub.Client, key: string, value: string, seconds: Option<int>,
                                 now: int, w': World)
    requires w'.subs == w.subs
    requires w'.store ==
      var s := Apply(w.store, Set(key, value), now);
      if seconds.None? then s else Apply(s, Expire(key, seconds.value), now)
    ensures forall text :: Does(w, client, Write(key, value, seconds, text), now, w', text)
  {
    forall text ensures Does(w, client, Write(key, value, seconds, text), now, w', text) {
      WriteOps(w.store, key, value, seconds, text, now);
    }
  }

  lemma {:induction false} WriteOps(s: Store, key: string, value: string, seconds: Option<int>, text: string, now: int)
    ensures ApplyAll(s, Ops(Write(key, value, seconds, text)), now) ==
      var stored := Apply(s, Set(key, value), now);
      if seconds.None? then stored else Apply(stored, Expire(key, seconds.value), now)
  {
    var ops := Ops(Write(key, value, seconds, text));
    if seconds.Some? {
      var e := Expire(key, seconds.value);
      assert ops[1..] == [e] && [e][1..] == [];
      assert ApplyAll(Apply(s, Set(key, value), now), [e], now) == Apply(Apply(s, Set(key, value), now), e, now);
    } else {
      assert ops[1..] == [];
    }
  }
}
