/**
 What one command does: the route it takes through the handler, the database
 operations it performs and the reply it gives.

 Iteration orders, unreachable subscribers, the success of SAVE and the head of
 INFO are not determined by the command, so `Performs` is a relation.
 */
module Commands {
  import opened Base
  import opened Store
  import opened Parser
  import opened RoundTrip
  import Expiry
  import ListLaws
  import ListReply
  import PubSub
  import Reply
  import Text

  datatype Verb =
    | PING | SET | GET | DEL | EXISTS | KEYS | DBSIZE | FLUSHDB | EXPIRE | TTL | PERSIST | SAVE
    | LPUSH | RPUSH | LPOP | RPOP | LRANGE | LLEN | LINDEX
    | SUBSCRIBE | UNSUBSCRIBE | PUBLISH | CONFIG | INFO
    | MULTI | EXEC | DISCARD | WATCH
    | OTHER

  function VerbOf(name: string): Verb {
    match name
    case "PING" => PING case "SET" => SET case "GET" => GET case "DEL" => DEL
    case "EXISTS" => EXISTS case "KEYS" => KEYS case "DBSIZE" => DBSIZE case "FLUSHDB" => FLUSHDB
    case "EXPIRE" => EXPIRE case "TTL" => TTL case "PERSIST" => PERSIST case "SAVE" => SAVE
    case "LPUSH" => LPUSH case "RPUSH" => RPUSH case "LPOP" => LPOP case "RPOP" => RPOP
    case "LRANGE" => LRANGE case "LLEN" => LLEN case "LINDEX" => LINDEX
    case "SUBSCRIBE" => SUBSCRIBE case "UNSUBSCRIBE" => UNSUBSCRIBE case "PUBLISH" => PUBLISH
    case "CONFIG" => CONFIG case "INFO" => INFO
    case "MULTI" => MULTI case "EXEC" => EXEC case "DISCARD" => DISCARD case "WATCH" => WATCH
    case _ => OTHER
  }

  /** The commands that steer a transaction; they are never queued. */
  predicate Steers(c: Command) {
    VerbOf(c.name) in {MULTI, EXEC, DISCARD, WATCH}
  }

  /** The commands a subscribed client may still use. */
  predicate WhileSubscribed(c: Command) {
    VerbOf(c.name) in {SUBSCRIBE, UNSUBSCRIBE, PING}
  }

  // ---------------------------------------------------------------------
  // Routing
  // ---------------------------------------------------------------------

  const WRONGTYPE := "WRONGTYPE " + ("Operation against a key" + " holding the wrong kind of value")
  const NOT_AN_INTEGER := "ERR value is not an integer or out of range"
  const SAVE_FAILED := "ERR failed to save database"

  function WrongArguments(name: string): string {
    "ERR wrong number of arguments for '" + name + "' command"
  }

  function BadExpiry(name: string): string {
    "ERR invalid expire time in '" + name + "' command"
  }

  function Unknown(name: string): string {
    "ERR unknown command '" + name + "'"
  }

  datatype Plan =
    | Say(text: string)
    | Ask(op: Op)
    | Write(key: string, value: string, seconds: Option<int>, text: string)
    | Save
    | Info
    | Join(names: seq<string>)
    | Leave(names: seq<string>)
    | Tell(channel: string)

  /** SET stores the value before it looks at the option. */
  function RouteSet(args: seq<string>): Plan {
    if |args| < 2 then Say(WrongArguments("SET"))
    else if |args| >= 4 && Text.Upper(args[2]) == "EX" then
      match Text.Stoi(args[3])
      case None => Write(args[0], args[1], None, NOT_AN_INTEGER)
      case Some(seconds) =>
        if seconds <= 0 then Write(args[0], args[1], None, BadExpiry("SET"))
        else Write(args[0], args[1], Some(seconds), "OK")
    else Write(args[0], args[1], None, "OK")
  }

  function RouteGet(args: seq<string>): Plan {
    if |args| != 1 then Say(WrongArguments("GET")) else Ask(Get(args[0]))
  }

  function RouteTtl(args: seq<string>): Plan {
    if |args| != 1 then Say(WrongArguments("TTL")) else Ask(Ttl(args[0]))
  }

  function RoutePersist(args: seq<string>): Plan {
    if |args| != 1 then Say(WrongArguments("PERSIST")) else Ask(Persist(args[0]))
  }

  function RouteLPop(args: seq<string>): Plan {
    if |args| != 1 then Say(WrongArguments("LPOP")) else Ask(LPop(args[0]))
  }

  function RouteRPop(args: seq<string>): Plan {
    if |args| != 1 then Say(WrongArguments("RPOP")) else Ask(RPop(args[0]))
  }

  function RouteLLen(args: seq<string>): Plan {
    if |args| != 1 then Say(WrongArguments("LLEN")) else Ask(LLen(args[0]))
  }

  function RouteDel(args: seq<string>): Plan {
    if args == [] then Say(WrongArguments("DEL")) else Ask(Del(args))
  }

  function RouteExists(args: seq<string>): Plan {
    if args == [] then Say(WrongArguments("EXISTS")) else Ask(Exists(args))
  }

  function RouteLPush(args: seq<string>): Plan {
    if |args| < 2 then Say(WrongArguments("LPUSH")) else Ask(LPush(args[0], args[1..]))
  }

  function RouteRPush(args: seq<string>): Plan {
    if |args| < 2 then Say(WrongArguments("RPUSH")) else Ask(RPush(args[0], args[1..]))
  }

  function RouteExpire(args: seq<string>): Plan {
    if |args| != 2 then Say(WrongArguments("EXPIRE"))
    else match Text.Stoi(args[1])
      case None => Say(NOT_AN_INTEGER)
      case Some(seconds) => if seconds <= 0 then Say(BadExpiry("EXPIRE")) else Ask(Expire(args[0], seconds))
  }

  function RouteLRange(args: seq<string>): Plan {
    if |args| != 3 then Say(WrongArguments("LRANGE"))
    else
      var start, stop := Text.Stoi(args[1]), Text.Stoi(args[2]);
      if start.None? || stop.None? then Say(NOT_AN_INTEGER) else Ask(LRange(args[0], start.value, stop.value))
  }

  function RouteLIndex(args: seq<string>): Plan {
    if |args| != 2 then Say(WrongArguments("LINDEX"))
    else match Text.Stoi(args[1])
      case None => Say(NOT_AN_INTEGER)
      case Some(index) => Ask(LIndex(args[0], index))
  }

  function RouteSubscribe(args: seq<string>): Plan {
    if args == [] then Say(WrongArguments("SUBSCRIBE")) else Join(args)
  }

  function RoutePublish(args: seq<string>): Plan {
    if |args| != 2 then Say(WrongArguments("PUBLISH")) else Tell(args[0])
  }

  function RoutePing(args: seq<string>): Plan {
    Say(if args == [] then "PONG" else args[0])
  }

  predicate Parameter(name: string) {
    name == "save" || name == "port" || name == "bind" || name == "requirepass" || name == "loglevel" ||
      name == "maxmemory"
  }

  function ConfigReply(args: seq<string>): string {
    if args == [] then WrongArguments("CONFIG")
    else if Text.Upper(args[0]) == "GET" then
      if |args| != 2 then WrongArguments("CONFIG GET")
      else if Parameter(args[1]) then Show(List([Quote(args[1]), Quote("")]))
      else Show(List([]))
    else if Text.Upper(args[0]) == "SET" then
      if |args| != 3 then WrongArguments("CONFIG SET") else "OK"
    else "ERR Unknown subcommand '" + Text.Upper(args[0]) + "'"
  }

  function Route(c: Command): Plan {
    match VerbOf(c.name)
    case PING => RoutePing(c.args)
    case SET => RouteSet(c.args)
    case GET => RouteGet(c.args)
    case DEL => RouteDel(c.args)
    case EXISTS => RouteExists(c.args)
    case KEYS => Ask(Keys)
    case DBSIZE => Ask(DbSize)
    case FLUSHDB => Ask(FlushDb)
    case EXPIRE => RouteExpire(c.args)
    case TTL => RouteTtl(c.args)
    case PERSIST => RoutePersist(c.args)
    case SAVE => Save
    case LPUSH => RouteLPush(c.args)
    case RPUSH => RouteRPush(c.args)
    case LPOP => RouteLPop(c.args)
    case RPOP => RouteRPop(c.args)
    case LRANGE => RouteLRange(c.args)
    case LLEN => RouteLLen(c.args)
    case LINDEX => RouteLIndex(c.args)
    case SUBSCRIBE => RouteSubscribe(c.args)
    case UNSUBSCRIBE => Leave(c.args)
    case PUBLISH => RoutePublish(c.args)
    case CONFIG => Say(ConfigReply(c.args))
    case INFO => Info
    case _ => Say(Unknown(c.name))
  }

  // ---------------------------------------------------------------------
  // Effect and reply
  // ---------------------------------------------------------------------

  datatype World = World(store: Store, subs: PubSub.Subscriptions)

  function Ops(plan: Plan): seq<Op> {
    match plan
    case Ask(op) => [op]
    case Write(k, x, seconds, _) => [Set(k, x)] + (if seconds.Some? then [Expire(k, seconds.value)] else [])
    case Info => [DbSize]
    case _ => []
  }

  function ApplyAll(s: Store, ops: seq<Op>, now: int): Store
    decreases |ops|
  {
    if ops == [] then s else ApplyAll(Apply(s, ops[0], now), ops[1..], now)
  }

  /** The reply to one database operation; that of KEYS depends on an order. */
  function ResponseTo(op: Op, a: Answer): Response
    requires !a.Names?
  {
    match a
    case Done => Status("OK")
    case Missing => Nil
    case Text(x) => Quote(x)
    case Count(n) => if (op.LPush? || op.RPush? || op.LLen?) && n == -1 then Error(WRONGTYPE) else Integer(n)
    case Items(xs) => List(ListReply.Quotes(xs))
    case Flag(b) => Integer(if b then 1 else 0)
  }

  /** The names of KEYS come in any order, once for each map that holds them. */
  ghost predicate Ordering(order: seq<string>, s: Store, now: int) {
    && Elements(order) == LiveStrings(s, now) + LiveLists(s, now)
    && |order| == |LiveStrings(s, now)| + |LiveLists(s, now)|
  }

  ghost predicate Replies(s: Store, op: Op, now: int, reply: string) {
    if op.Keys? then exists order :: Ordering(order, s, now) && reply == Show(List(ListReply.Quotes(order)))
    else reply == Show(ResponseTo(op, AnswerTo(s, op, now)))
  }

  function NoticeLines(word: string, notices: seq<PubSub.Notice>): string {
    if notices == [] then ""
    else word + notices[0].channel + " " + Text.ToString(notices[0].count)
         + (if |notices| == 1 then "" else "\n" + NoticeLines(word, notices[1..]))
  }

  ghost predicate Leaves(subs: PubSub.Subscriptions, client: PubSub.Client, names: seq<string>, targets: seq<string>) {
    if names != [] then targets == names else Enumerates(targets, PubSub.Of(subs, client))
  }

  ghost function LeaveReply(subs: PubSub.Subscriptions, client: PubSub.Client, targets: seq<string>): string {
    NoticeLines("unsubscribe ",
      if targets == [] then [PubSub.Notice("*", 0)] else PubSub.LeaveNotices(subs, client, targets))
  }

  predicate EndsWith(s: string, tail: string) {
    |tail| <= |s| && s[|s| - |tail|..] == tail
  }

  ghost predicate Outcome(w: World, client: PubSub.Client, plan: Plan, now: int, subs: PubSub.Subscriptions,
                          reply: string)
  {
    match plan
    case Say(text) => subs == w.subs && reply == text
    case Ask(op) => subs == w.subs && Replies(w.store, op, now, reply)
    case Write(_, _, _, text) => subs == w.subs && reply == text
    case Save => subs == w.subs && (reply == "OK" || reply == SAVE_FAILED)
    case Info =>
      && subs == w.subs
      && EndsWith(reply, "\n# Keyspace\ndb0:keys=" + Text.ToString(AnswerTo(w.store, DbSize, now).count) + "\n")
    case Join(names) =>
      && subs == PubSub.Joined(w.subs, client, names)
      && reply == NoticeLines("subscribe ", PubSub.JoinNotices(w.subs, client, names))
    case Leave(names) =>
      exists targets :: Leaves(w.subs, client, names, targets)
        && subs == PubSub.Left(w.subs, client, targets) && reply == LeaveReply(w.subs, client, targets)
    case Tell(channel) =>
      && subs <= w.subs && (forall p :: p in w.subs && p !in subs ==> p.1 == channel)
      && reply == Show(Integer(|PubSub.On(subs, channel)|))
  }

  ghost predicate Does(w: World, client: PubSub.Client, plan: Plan, now: int, w': World, reply: string) {
    w'.store == ApplyAll(w.store, Ops(plan), now) && Outcome(w, client, plan, now, w'.subs, reply)
  }

  /** One command, run at once, takes world `w` to `w'`. */
  ghost predicate Performs(w: World, client: PubSub.Client, c: Command, now: int, w': World, reply: string) {
    Does(w, client, Route(c), now, w', reply)
  }

  // ---------------------------------------------------------------------
  // What every command keeps
  // ---------------------------------------------------------------------

  ghost predicate Subscribed(subs: PubSub.Subscriptions, client: PubSub.Client) {
    exists p :: p in subs && p.0 == client
  }

  lemma {:induction false} ApplyAllKeeps(s: Store, ops: seq<Op>, now: int)
    requires ListLaws.Invariant(s) && forall i :: 0 <= i < |ops| ==> ListLaws.Pushes(ops[i])
    ensures ListLaws.Invariant(ApplyAll(s, ops, now))
    decreases |ops|
  {
    if ops == [] {
    } else {
      assert ListLaws.Pushes(ops[0]);
      Expiry.Refines(s, ops[0], now);
      ListLaws.StepKeepsLists(s, ops[0], now);
      ApplyAllKeeps(Apply(s, ops[0], now), ops[1..], now);
    }
  }

  /** The handler never pushes an empty list of values. */
  lemma {:induction false} RoutePushes(c: Command)
    ensures forall i :: 0 <= i < |Ops(Route(c))| ==> ListLaws.Pushes(Ops(Route(c))[i])
  {
  }

  /** No command puts a key in both maps, leaves a deadline behind or stores an empty list. */
  lemma {:induction false} PerformsKeepsStore(w: World, client: PubSub.Client, c: Command, now: int, w': World,
                                              reply: string)
    requires ListLaws.Invariant(w.store) && Performs(w, client, c, now, w', reply)
    ensures ListLaws.Invariant(w'.store)
  {
    RoutePushes(c);
    ApplyAllKeeps(w.store, Ops(Route(c)), now);
  }

  lemma {:induction false} LeftIsPart(subs: PubSub.Subscriptions, client: PubSub.Client, names: seq<string>)
    ensures PubSub.Left(subs, client, names) <= subs
    decreases |names|
  {
    if names == [] {
    } else {
      LeftIsPart(subs, client, names[..|names| - 1]);
    }
  }

  /** Only SUBSCRIBE adds a subscription. */
  lemma {:induction false} PerformsAddsNone(w: World, client: PubSub.Client, c: Command, now: int, w': World,
                                            reply: string)
    requires Performs(w, client, c, now, w', reply) && VerbOf(c.name) != SUBSCRIBE
    ensures w'.subs <= w.subs
  {
    var plan := Route(c);
    assert !plan.Join?;
    if plan.Leave? {
      var targets :| Leaves(w.subs, client, plan.names, targets) && w'.subs == PubSub.Left(w.subs, client, targets);
      LeftIsPart(w.subs, client, targets);
    }
  }

  // ---------------------------------------------------------------------
  // What the client shows
  // ---------------------------------------------------------------------

  /** Strings that LRANGE or KEYS can show line by line. */
  ghost predicate Listable(strings: seq<string>) {
    0 < |strings| < 0x8000_0000 && forall i :: 0 <= i < |strings| ==> OneLine(strings[i]) && |strings[i]| < 0x8000_0000
  }

  ghost predicate ShowableAnswer(a: Answer) {
    match a
    case Text(x) => |x| < 0x8000_0000
    case Count(n) => Text.InRange(n, 64)
    case Items(xs) => Listable(xs)
    case _ => true
  }

  ghost predicate ShowableNames(s: Store, now: int) {
    && 0 < |LiveStrings(s, now)| + |LiveLists(s, now)| < 0x8000_0000
    && forall name :: name in LiveStrings(s, now) + LiveLists(s, now) ==> OneLine(name) && |name| < 0x8000_0000
  }

  /** Which answers of the database survive the trip to the client. */
  ghost predicate Showable(s: Store, op: Op, now: int) {
    if op.Keys? then ShowableNames(s, now) else ShowableAnswer(AnswerTo(s, op, now))
  }

  ghost predicate Clean(s: string) {
    forall i :: 0 <= i < |s| ==> s[i] != '\r'
  }

  lemma {:induction false} WrongTypeClean()
    ensures Clean("WRONGTYPE ") && Clean("Operation against a key") && Clean(" holding the wrong kind of value")
  {
  }

  lemma {:induction false} CleanError(word: string, a: string, b: string)
    requires word == "WRONGTYPE " && Clean(word) && Clean(a) && Clean(b)
    ensures Reply.IsError(word + (a + b)) && !HasCrlf(word + (a + b))
  {
    assert Reply.StartsWith(word + (a + b), word);
    assert Clean(word + (a + b));
  }

  lemma {:induction false} WrongTypePlain()
    ensures Reply.IsError(WRONGTYPE) && !HasCrlf(WRONGTYPE)
  {
    WrongTypeClean();
    CleanError("WRONGTYPE ", "Operation against a key", " holding the wrong kind of value");
  }

  lemma {:induction false} StringsShown(strings: seq<string>)
    requires Listable(strings)
    ensures RoundTrips(Show(List(ListReply.Quotes(strings))))
  {
    var items := ListReply.Quotes(strings);
    ListReply.QuotesShown(strings);
    forall i | 0 <= i < |items| ensures Faithful(items[i]) && OneLine(Show(items[i])) {
      ListReply.ShowsAt(items, i);
      ListReply.QuotedOneLine(strings[i]);
      ListReply.QuotesAt(strings, i);
    }
    ListReply.FaithfulTrips(List(items));
  }

  lemma {:induction false} OrderListable(order: seq<string>, s: Store, now: int)
    requires Ordering(order, s, now) && ShowableNames(s, now)
    ensures Listable(order)
  {
    forall i | 0 <= i < |order| ensures OneLine(order[i]) && |order[i]| < 0x8000_0000 {
      assert order[i] in Elements(order);
    }
  }

  lemma {:induction false} KeysShown(s: Store, now: int, reply: string)
    requires Replies(s, Keys, now, reply) && ShowableNames(s, now)
    ensures RoundTrips(reply)
  {
    var order :| Ordering(order, s, now) && reply == Show(List(ListReply.Quotes(order)));
    OrderListable(order, s, now);
    StringsShown(order);
  }

  /** What the handler says of such an answer is what the client shows. */
  lemma {:induction false} ReplyShown(s: Store, op: Op, now: int, reply: string)
    requires Replies(s, op, now, reply) && Showable(s, op, now)
    ensures RoundTrips(reply)
  {
    if op.Keys? {
      KeysShown(s, now, reply);
    } else {
      AnswerShown(op, AnswerTo(s, op, now));
    }
  }

  lemma {:induction false} AnswerShown(op: Op, a: Answer)
    requires !a.Names? && ShowableAnswer(a)
    ensures RoundTrips(Show(ResponseTo(op, a)))
  {
    if a.Items? {
      StringsShown(a.items);
    } else {
      WrongTypePlain();
      ListReply.FaithfulTrips(ResponseTo(op, a));
    }
  }
}
