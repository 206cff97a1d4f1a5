/**
 What each command does, by its name and its arguments: the operation it asks for,
 spelled out, and the very words of its reply.
 */
module Catalogue {
  import opened Base
  import opened Store
  import opened Text
  import opened Numbering
  import opened Parser
  import opened RoundTrip
  import opened Commands
  import opened Transactions
  import Deadlines
  import Errors
  import Expiry
  import ListReply
  import PubSub
  import Resp

  // ---------------------------------------------------------------------
  // Names
  // ---------------------------------------------------------------------

  lemma {:induction false} KeyVerbs()
    ensures VerbOf("PING") == PING && VerbOf("SET") == SET && VerbOf("GET") == GET && VerbOf("DEL") == DEL
    ensures VerbOf("EXISTS") == EXISTS && VerbOf("KEYS") == KEYS && VerbOf("DBSIZE") == DBSIZE
    ensures VerbOf("FLUSHDB") == FLUSHDB && VerbOf("EXPIRE") == EXPIRE && VerbOf("TTL") == TTL
    ensures VerbOf("PERSIST") == PERSIST && VerbOf("SAVE") == SAVE
  {
  }

  lemma {:induction false} ListVerbs()
    ensures VerbOf("LPUSH") == LPUSH && VerbOf("RPUSH") == RPUSH && VerbOf("LPOP") == LPOP && VerbOf("RPOP") == RPOP
    ensures VerbOf("LRANGE") == LRANGE && VerbOf("LLEN") == LLEN && VerbOf("LINDEX") == LINDEX
  {
  }

  lemma {:induction false} OtherVerbs()
    ensures VerbOf("SUBSCRIBE") == SUBSCRIBE && VerbOf("UNSUBSCRIBE") == UNSUBSCRIBE && VerbOf("PUBLISH") == PUBLISH
    ensures VerbOf("CONFIG") == CONFIG && VerbOf("INFO") == INFO
  {
  }

  lemma {:induction false} SteeringVerbs()
    ensures VerbOf("MULTI") == MULTI && VerbOf("EXEC") == EXEC && VerbOf("DISCARD") == DISCARD
    ensures VerbOf("WATCH") == WATCH
  {
  }

  predicate KeyName(name: string) {
    || name == "PING" || name == "SET" || name == "GET" || name == "DEL" || name == "EXISTS" || name == "KEYS"
    || name == "DBSIZE" || name == "FLUSHDB" || name == "EXPIRE" || name == "TTL" || name == "PERSIST" || name == "SAVE"
  }

  predicate ListName(name: string) {
    || name == "LPUSH" || name == "RPUSH" || name == "LPOP" || name == "RPOP" || name == "LRANGE" || name == "LLEN"
    || name == "LINDEX"
  }

  predicate OtherName(name: string) {
    name == "SUBSCRIBE" || name == "UNSUBSCRIBE" || name == "PUBLISH" || name == "CONFIG" || name == "INFO"
  }

  predicate SteeringName(name: string) {
    name == "MULTI" || name == "EXEC" || name == "DISCARD" || name == "WATCH"
  }

  /** Every other name is unknown. */
  lemma {:induction false} UnknownExactly(name: string)
    ensures VerbOf(name) == OTHER <==> !KeyName(name) && !ListName(name) && !OtherName(name) && !SteeringName(name)
  {
    if KeyName(name) {
      KeyVerbs();
    } else if ListName(name) {
      ListVerbs();
    } else if OtherName(name) {
      OtherVerbs();
    } else if SteeringName(name) {
      SteeringVerbs();
    }
  }

  // ---------------------------------------------------------------------
  // Commands that are one operation
  // ---------------------------------------------------------------------

  /** The operation that a well-formed command asks for. */
  ghost predicate Means(c: Command, op: Op) {
    || (c.name == "GET" && |c.args| == 1 && op == Get(c.args[0]))
    || (c.name == "DEL" && c.args != [] && op == Del(c.args))
    || (c.name == "EXISTS" && c.args != [] && op == Exists(c.args))
    || (c.name == "KEYS" && op == Keys)
    || (c.name == "DBSIZE" && op == DbSize)
    || (c.name == "FLUSHDB" && op == FlushDb)
    || (c.name == "TTL" && |c.args| == 1 && op == Ttl(c.args[0]))
    || (c.name == "PERSIST" && |c.args| == 1 && op == Persist(c.args[0]))
    || (c.name == "EXPIRE" && |c.args| == 2 && op.Expire? && op.key == c.args[0]
        && Stoi(c.args[1]) == Some(op.seconds) && op.seconds > 0)
    || ListMeans(c, op)
  }

  ghost predicate ListMeans(c: Command, op: Op) {
    || (c.name == "LPUSH" && |c.args| >= 2 && op == LPush(c.args[0], c.args[1..]))
    || (c.name == "RPUSH" && |c.args| >= 2 && op == RPush(c.args[0], c.args[1..]))
    || (c.name == "LPOP" && |c.args| == 1 && op == LPop(c.args[0]))
    || (c.name == "RPOP" && |c.args| == 1 && op == RPop(c.args[0]))
    || (c.name == "LLEN" && |c.args| == 1 && op == LLen(c.args[0]))
    || (c.name == "LRANGE" && |c.args| == 3 && op.LRange? && op.key == c.args[0]
        && Stoi(c.args[1]) == Some(op.start) && Stoi(c.args[2]) == Some(op.stop))
    || (c.name == "LINDEX" && |c.args| == 2 && op.LIndex? && op.key == c.args[0] && Stoi(c.args[1]) == Some(op.index))
  }

  lemma {:induction false} KeyRoute(c: Command, op: Op)
    requires Means(c, op) && !ListMeans(c, op)
    ensures Route(c) == Ask(op)
  {
    KeyVerbs();
  }

  lemma {:induction false} ListRoute(c: Command, op: Op)
    requires ListMeans(c, op)
    ensures Route(c) == Ask(op)
  {
    ListVerbs();
  }

  /** The words for an answer. */
  function Phrase(op: Op, a: Answer): string
    requires !a.Names?
  {
    match a
    case Done => "OK"
    case Missing => "(nil)"
    case Text(x) => "\"" + x + "\""
    case Count(n) =>
      if n == -1 && (op.LPush? || op.RPush? || op.LLen?)
      then "WRONGTYPE " + ("Operation against a key" + " holding the wrong kind of value")
      else "(integer) " + ToString(n)
    case Flag(b) => if b then "(integer) 1" else "(integer) 0"
    case Items(xs) => Enumeration(xs)
  }

  /** Strings in quotes, one to a line, numbered from 1. */
  function Enumeration(xs: seq<string>): string {
    if xs == [] then "(empty list)" else Numbered(InQuotes(xs), 1)
  }

  function InQuotes(xs: seq<string>): (r: seq<string>)
    ensures |r| == |xs|
  {
    seq(|xs|, i requires 0 <= i < |xs| => "\"" + xs[i] + "\"")
  }

  lemma {:induction false} EnumerationShown(xs: seq<string>)
    ensures Show(List(ListReply.Quotes(xs))) == Enumeration(xs)
  {
    ListReply.QuotesShown(xs);
    if xs == [] {
    } else {
      assert Shows(ListReply.Quotes(xs)) == InQuotes(xs);
    }
  }

  lemma {:induction false} PhraseShown(op: Op, a: Answer)
    requires !a.Names?
    ensures Show(ResponseTo(op, a)) == Phrase(op, a)
  {
    match a
    case Items(xs) => EnumerationShown(xs);
    case Flag(b) => assert ToString(1) == "1" && ToString(0) == "0";
    case _ =>
  }

  /** The reply to an operation: from the live view, but for the count of DEL, and for KEYS in any order. */
  ghost predicate Worded(s: Store, op: Op, now: int, reply: string) {
    if op.Keys? then exists order :: Enumerates(order, Live(s, now).Keys) && reply == Enumeration(order)
    else if op.Del? then reply == "(integer) " + ToString(|Elements(op.keys) * (s.strings.Keys + s.lists.Keys)|)
    else
      var a := ViewAnswer(Live(s, now), op, now);
      !a.Names? && reply == Phrase(op, a)
  }

  /** What one operation does to what a client sees, and what it replies. */
  ghost predicate Performed(w: World, op: Op, now: int, w': World, reply: string) {
    && w'.subs == w.subs && w'.store == Apply(w.store, op, now)
    && Live(w'.store, now) == ViewApply(Live(w.store, now), op, now)
    && Worded(w.store, op, now, reply)
  }

  lemma {:induction false} OrderingShown(s: Store, order: seq<string>, now: int)
    requires Consistent(s)
    ensures Ordering(order, s, now) <==> Enumerates(order, Live(s, now).Keys)
  {
    Expiry.LiveKeys(s, now);
    Expiry.SizeFromView(s, now);
    assert |Live(s, now).Keys| == |Live(s, now)|;
  }

  lemma {:induction false} KeysReply(s: Store, now: int, reply: string)
    requires Consistent(s)
    ensures Replies(s, Keys, now, reply) <==> Worded(s, Keys, now, reply)
  {
    if Replies(s, Keys, now, reply) {
      var order :| Ordering(order, s, now) && reply == Show(List(ListReply.Quotes(order)));
      OrderingShown(s, order, now);
      EnumerationShown(order);
    }
    if order :| Enumerates(order, Live(s, now).Keys) && reply == Enumeration(order) {
      OrderingShown(s, order, now);
      EnumerationShown(order);
    }
  }

  lemma {:induction false} ReplyWords(s: Store, op: Op, now: int, reply: string)
    requires Consistent(s) && !op.Keys? && !op.Del?
    ensures Replies(s, op, now, reply) <==> Worded(s, op, now, reply)
  {
    Expiry.AnswersFromView(s, op, now);
    PhraseShown(op, AnswerTo(s, op, now));
  }

  lemma {:induction false} DelWords(s: Store, ks: seq<string>, now: int, reply: string)
    ensures Replies(s, Del(ks), now, reply) <==> Worded(s, Del(ks), now, reply)
  {
  }

  lemma {:induction false} WordedExactly(s: Store, op: Op, now: int, reply: string)
    requires Consistent(s)
    ensures Replies(s, op, now, reply) <==> Worded(s, op, now, reply)
  {
    match op
    case Keys => KeysReply(s, now, reply);
    case Del(ks) => DelWords(s, ks, now, reply);
    case _ => ReplyWords(s, op, now, reply);
  }

  lemma {:induction false} AskExactly(w: World, client: PubSub.Client, op: Op, now: int, w': World, reply: string)
    requires Consistent(w.store)
    ensures Does(w, client, Ask(op), now, w', reply) <==> Performed(w, op, now, w', reply)
  {
    Errors.OneOp(w.store, op, now);
    Expiry.Refines(w.store, op, now);
    WordedExactly(w.store, op, now, reply);
  }

  /** A well-formed command does what the operation it asks for does, and nothing else. */
  lemma {:induction false} MeansExactly(w: World, client: PubSub.Client, c: Command, op: Op, now: int, w': World,
                                        reply: string)
    requires Consistent(w.store) && Means(c, op)
    ensures Performs(w, client, c, now, w', reply) <==> Performed(w, op, now, w', reply)
  {
    if ListMeans(c, op) {
      ListRoute(c, op);
    } else {
      KeyRoute(c, op);
    }
    AskExactly(w, client, op, now, w', reply);
  }

  // ---------------------------------------------------------------------
  // Commands that are refused
  // ---------------------------------------------------------------------

  /** The number of arguments that a command takes. */
  predicate Misused(c: Command) {
    || ((c.name == "GET" || c.name == "TTL" || c.name == "PERSIST" || c.name == "LPOP" || c.name == "RPOP"
         || c.name == "LLEN") && |c.args| != 1)
    || ((c.name == "EXPIRE" || c.name == "LINDEX" || c.name == "PUBLISH") && |c.args| != 2)
    || (c.name == "LRANGE" && |c.args| != 3)
    || ((c.name == "SET" || c.name == "LPUSH" || c.name == "RPUSH") && |c.args| < 2)
    || ((c.name == "DEL" || c.name == "EXISTS" || c.name == "SUBSCRIBE" || c.name == "CONFIG") && c.args == [])
  }

  /** Nothing happens, and this is the reply. */
  ghost predicate Spoken(w: World, w': World, reply: string, words: string) {
    w' == w && reply == words
  }

  lemma {:induction false} SayExactly(w: World, client: PubSub.Client, words: string, now: int, w': World,
                                      reply: string)
    ensures Does(w, client, Say(words), now, w', reply) <==> Spoken(w, w', reply, words)
  {
  }

  lemma {:induction false} KeyMisused(c: Command)
    requires Misused(c) && KeyName(c.name)
    ensures Route(c) == Say("ERR wrong number of arguments for '" + c.name + "' command")
  {
    KeyVerbs();
  }

  lemma {:induction false} ListMisused(c: Command)
    requires Misused(c) && ListName(c.name)
    ensures Route(c) == Say("ERR wrong number of arguments for '" + c.name + "' command")
  {
    ListVerbs();
  }

  lemma {:induction false} OtherMisused(c: Command)
    requires Misused(c) && OtherName(c.name)
    ensures Route(c) == Say("ERR wrong number of arguments for '" + c.name + "' command")
  {
    OtherVerbs();
  }

  lemma {:induction false} MisusedExactly(w: World, client: PubSub.Client, c: Command, now: int, w': World,
                                          reply: string)
    requires Misused(c)
    ensures Performs(w, client, c, now, w', reply) <==>
      Spoken(w, w', reply, "ERR wrong number of arguments for '" + c.name + "' command")
  {
    if KeyName(c.name) {
      KeyMisused(c);
    } else if ListName(c.name) {
      ListMisused(c);
    } else {
      OtherMisused(c);
    }
    SayExactly(w, client, "ERR wrong number of arguments for '" + c.name + "' command", now, w', reply);
  }

  /** An argument that should be a number and is none. */
  predicate Unreadable(c: Command) {
    || ((c.name == "EXPIRE" || c.name == "LINDEX") && |c.args| == 2 && Stoi(c.args[1]) == None)
    || (c.name == "LRANGE" && |c.args| == 3 && (Stoi(c.args[1]) == None || Stoi(c.args[2]) == None))
  }

  lemma {:induction false} UnreadableRoute(c: Command)
    requires Unreadable(c)
    ensures Route(c) == Say("ERR value is not an integer or out of range")
  {
    if c.name == "EXPIRE" {
      KeyVerbs();
    } else {
      ListVerbs();
    }
  }

  lemma {:induction false} UnreadableExactly(w: World, client: PubSub.Client, c: Command, now: int, w': World,
                                             reply: string)
    requires Unreadable(c)
    ensures Performs(w, client, c, now, w', reply) <==>
      Spoken(w, w', reply, "ERR value is not an integer or out of range")
  {
    UnreadableRoute(c);
    SayExactly(w, client, "ERR value is not an integer or out of range", now, w', reply);
  }

  lemma {:induction false} ExpireRefusedExactly(w: World, client: PubSub.Client, c: Command, n: int, now: int,
                                                w': World,
                                                reply: string)
    requires c.name == "EXPIRE" && |c.args| == 2 && Stoi(c.args[1]) == Some(n) && n <= 0
    ensures Performs(w, client, c, now, w', reply) <==>
      Spoken(w, w', reply, "ERR invalid expire time in '" + "EXPIRE" + "' command")
  {
    KeyVerbs();
  }

  lemma {:induction false} SteeringRoute(c: Command)
    requires SteeringName(c.name)
    ensures Route(c) == Say("ERR unknown command '" + c.name + "'")
  {
    SteeringVerbs();
  }

  lemma {:induction false} NoSuchRoute(c: Command)
    requires !KeyName(c.name) && !ListName(c.name) && !OtherName(c.name)
    ensures Route(c) == Say("ERR unknown command '" + c.name + "'")
  {
    if SteeringName(c.name) {
      SteeringRoute(c);
    } else {
      UnknownExactly(c.name);
    }
  }

  lemma {:induction false} NoSuchCommandExactly(w: World, client: PubSub.Client, c: Command, now: int, w': World,
                                                reply: string)
    requires !KeyName(c.name) && !ListName(c.name) && !OtherName(c.name)
    ensures Performs(w, client, c, now, w', reply) <==> Spoken(w, w', reply, "ERR unknown command '" + c.name + "'")
  {
    NoSuchRoute(c);
    SayExactly(w, client, "ERR unknown command '" + c.name + "'", now, w', reply);
  }

  // ---------------------------------------------------------------------
  // SET
  // ---------------------------------------------------------------------

  lemma {:induction false} UpperSpells(text: string, word: string)
    requires forall i :: 0 <= i < |word| ==> !('a' <= word[i] <= 'z')
    ensures Upper(text) == word <==> Resp.SameSpelling(text, word)
  {
    if Upper(text) == word {
      forall i | 0 <= i < |text| ensures Resp.SameLetter(text[i], word[i]) {
        assert Upper(text)[i] == word[i];
      }
    }
    if Resp.SameSpelling(text, word) {
      forall i | 0 <= i < |text| ensures Upper(text)[i] == word[i] {
        assert Resp.SameLetter(text[i], word[i]);
      }
      assert Upper(text) == word;
    }
  }

  /** A SET with the option EX, in capitals or small letters, and something behind it. */
  ghost predicate WithExpiry(c: Command) {
    |c.args| >= 4 && Resp.SameSpelling(c.args[2], "EX")
  }

  lemma {:induction false} SetRoute(c: Command)
    requires c.name == "SET" && |c.args| >= 2
    ensures !WithExpiry(c) ==> Route(c) == Write(c.args[0], c.args[1], None, "OK")
    ensures WithExpiry(c) ==>
      Route(c) == match Stoi(c.args[3])
                  case None => Write(c.args[0], c.args[1], None, "ERR value is not an integer or out of range")
                  case Some(n) =>
                    if n <= 0
                    then Write(c.args[0], c.args[1], None, "ERR invalid expire time in '" + "SET" + "' command")
                    else Write(c.args[0], c.args[1], Some(n), "OK")
  {
    KeyVerbs();
    if |c.args| >= 4 { UpperSpells(c.args[2], "EX"); }
  }

  lemma {:induction false} WriteExactly(w: World, client: PubSub.Client, k: string, x: string, words: string, now: int,
                                        w': World, reply: string)
    ensures Does(w, client, Write(k, x, None, words), now, w', reply) <==>
      w' == World(Apply(w.store, Set(k, x), now), w.subs) && reply == words
  {
    Errors.OneOp(w.store, Set(k, x), now);
    assert [Set(k, x)] + [] == [Set(k, x)];
  }

  lemma {:induction false} WriteExpiringExactly(w: World, client: PubSub.Client, k: string, x: string, n: int, now: int,
                                                w': World, reply: string)
    ensures Does(w, client, Write(k, x, Some(n), "OK"), now, w', reply) <==>
      w' == World(Apply(Apply(w.store, Set(k, x), now), Expire(k, n), now), w.subs) && reply == "OK"
  {
    var ops := [Set(k, x)] + [Expire(k, n)];
    assert ops[1..] == [Expire(k, n)];
    Errors.OneOp(Apply(w.store, Set(k, x), now), Expire(k, n), now);
  }

  /** SET stores the value; a readable positive number behind EX is its time to live; a
      bad one makes the reply an error and leaves the value stored. */
  lemma {:induction false} SetExactly(w: World, client: PubSub.Client, c: Command, now: int, w': World, reply: string)
    requires c.name == "SET" && |c.args| >= 2
    ensures
      var s := Apply(w.store, Set(c.args[0], c.args[1]), now);
      Performs(w, client, c, now, w', reply) <==>
        && w'.subs == w.subs
        && if !WithExpiry(c) then w'.store == s && reply == "OK"
           else match Stoi(c.args[3])
             case None => w'.store == s && reply == "ERR value is not an integer or out of range"
             case Some(n) =>
               if n <= 0 then w'.store == s && reply == "ERR invalid expire time in '" + "SET" + "' command"
               else w'.store == Apply(s, Expire(c.args[0], n), now) && reply == "OK"
  {
    var k, x := c.args[0], c.args[1];
    SetRoute(c);
    if !WithExpiry(c) {
      WriteExactly(w, client, k, x, "OK", now, w', reply);
    } else if Stoi(c.args[3]) == None {
      WriteExactly(w, client, k, x, "ERR value is not an integer or out of range", now, w', reply);
    } else if Stoi(c.args[3]).value <= 0 {
      WriteExactly(w, client, k, x, "ERR invalid expire time in '" + "SET" + "' command", now, w', reply);
    } else {
      WriteExpiringExactly(w, client, k, x, Stoi(c.args[3]).value, now, w', reply);
    }
  }

  /** With EX n, the value can be read for exactly n thousand million nanoseconds. */
  lemma {:induction false} SetExpiresExactly(w: World, client: PubSub.Client, c: Command, n: int, now: int, w': World,
                                             reply: string, later: int)
    requires c.name == "SET" && |c.args| >= 2 && WithExpiry(c) && Stoi(c.args[3]) == Some(n) && n > 0 && now <= later
    requires Performs(w, client, c, now, w', reply)
    ensures Lookup(Live(w'.store, later), c.args[0]) ==
      if later < now + n * 1_000_000_000 then Some(Entry(Str(c.args[1]), Some(now + n * 1_000_000_000))) else None
  {
    SetExactly(w, client, c, now, w', reply);
    Deadlines.SetStays(w.store, c.args[0], c.args[1], now, now);
    Deadlines.ExpireExactly(Apply(w.store, Set(c.args[0], c.args[1]), now), c.args[0], n, now, later);
  }

  // ---------------------------------------------------------------------
  // Channels and the rest
  // ---------------------------------------------------------------------

  lemma {:induction false} PingExactly(w: World, client: PubSub.Client, c: Command, now: int, w': World, reply: string)
    requires c.name == "PING"
    ensures Performs(w, client, c, now, w', reply) <==>
      Spoken(w, w', reply, if c.args == [] then "PONG" else c.args[0])
  {
    KeyVerbs();
  }

  lemma {:induction false} ChannelRoutes(c: Command)
    ensures c.name == "SUBSCRIBE" && c.args != [] ==> Route(c) == Join(c.args)
    ensures c.name == "UNSUBSCRIBE" ==> Route(c) == Leave(c.args)
    ensures c.name == "PUBLISH" && |c.args| == 2 ==> Route(c) == Tell(c.args[0])
    ensures c.name == "INFO" ==> Route(c) == Info
  {
    OtherVerbs();
  }

  /** SUBSCRIBE adds the named channels, one line of the reply for each. */
  lemma {:induction false} SubscribeExactly(w: World, client: PubSub.Client, c: Command, now: int, w': World,
                                            reply: string)
    requires c.name == "SUBSCRIBE" && c.args != []
    ensures Performs(w, client, c, now, w', reply) <==>
      && w'.store == w.store && w'.subs == w.subs + PubSub.To(client, Elements(c.args))
      && reply == NoticeLines("subscribe ", PubSub.JoinNotices(w.subs, client, c.args))
  {
    ChannelRoutes(c);
    PubSub.JoinedAre(w.subs, client, c.args);
  }

  /** PUBLISH to a channel can only lose subscribers of that channel; it counts those that are left. */
  lemma {:induction false} PublishExactly(w: World, client: PubSub.Client, c: Command, now: int, w': World,
                                          reply: string)
    requires c.name == "PUBLISH" && |c.args| == 2
    ensures Performs(w, client, c, now, w', reply) <==>
      && w'.store == w.store && w'.subs <= w.subs
      && (forall p :: p in w.subs && p !in w'.subs ==> p.1 == c.args[0])
      && reply == "(integer) " + ToString(|PubSub.On(w'.subs, c.args[0])|)
  {
    ChannelRoutes(c);
  }

  /** UNSUBSCRIBE leaves the named channels, or all of them, and says so even if there are none. */
  lemma {:induction false} UnsubscribeExactly(w: World, client: PubSub.Client, c: Command, now: int, w': World,
                                              reply: string)
    requires c.name == "UNSUBSCRIBE" && Performs(w, client, c, now, w', reply)
    ensures w'.store == w.store
    ensures c.args != [] ==>
      && w'.subs == w.subs - PubSub.To(client, Elements(c.args))
      && reply == NoticeLines("unsubscribe ", PubSub.LeaveNotices(w.subs, client, c.args))
    ensures c.args == [] ==> w'.subs == set p | p in w.subs && p.0 != client
    ensures c.args == [] && !Subscribed(w.subs, client) ==> reply == "unsubscribe * 0"
    ensures c.args == [] && Subscribed(w.subs, client) ==>
      exists order :: Enumerates(order, PubSub.Of(w.subs, client))
        && reply == NoticeLines("unsubscribe ", PubSub.LeaveNotices(w.subs, client, order))
  {
    ChannelRoutes(c);
    var targets :| Leaves(w.subs, client, c.args, targets) && w'.subs == PubSub.Left(w.subs, client, targets)
      && reply == LeaveReply(w.subs, client, targets);
    PubSub.LeftAre(w.subs, client, targets);
  }

  lemma {:induction false} SaveExactly(w: World, client: PubSub.Client, c: Command, now: int, w': World, reply: string)
    requires c.name == "SAVE"
    ensures Performs(w, client, c, now, w', reply) <==>
      w' == w && (reply == "OK" || reply == "ERR failed to save database")
  {
    KeyVerbs();
  }

  /** INFO changes nothing that can be seen, and ends with the number of live keys. */
  lemma {:induction false} InfoExactly(w: World, client: PubSub.Client, c: Command, now: int, w': World, reply: string)
    requires Consistent(w.store) && c.name == "INFO" && Performs(w, client, c, now, w', reply)
    ensures w'.subs == w.subs && Live(w'.store, now) == Live(w.store, now)
    ensures EndsWith(reply, "\n# Keyspace\ndb0:keys=" + ToString(|Live(w.store, now)|) + "\n")
  {
    ChannelRoutes(c);
    SizeCounts(w.store, now);
    InfoCounts(w, client, |Live(w.store, now)|, now, w', reply);
  }

  lemma {:induction false} SizeCounts(s: Store, now: int)
    requires Consistent(s)
    ensures AnswerTo(s, DbSize, now) == Count(|Live(s, now)|)
    ensures Live(ApplyAll(s, [DbSize], now), now) == Live(s, now)
  {
    Errors.OneOp(s, DbSize, now);
    Expiry.Refines(s, DbSize, now);
    Expiry.AnswersFromView(s, DbSize, now);
  }

  lemma {:induction false} InfoCounts(w: World, client: PubSub.Client, n: int, now: int, w': World, reply: string)
    requires Does(w, client, Info, now, w', reply) && AnswerTo(w.store, DbSize, now) == Count(n)
    ensures w' == World(ApplyAll(w.store, [DbSize], now), w.subs)
    ensures EndsWith(reply, "\n# Keyspace\ndb0:keys=" + ToString(n) + "\n")
  {
  }

  // ---------------------------------------------------------------------
  // CONFIG
  // ---------------------------------------------------------------------

  /** The words of CONFIG, by its subcommand in capitals or small letters. */
  ghost predicate ConfigWords(args: seq<string>, words: string) {
    if args == [] then words == "ERR wrong number of arguments for '" + "CONFIG" + "' command"
    else if Resp.SameSpelling(args[0], "GET") then
      if |args| != 2 then words == "ERR wrong number of arguments for '" + "CONFIG GET" + "' command"
      else if args[1] in {"save", "port", "bind", "requirepass", "loglevel", "maxmemory"}
      then words == "1) \"" + args[1] + "\"\n2) \"\""
      else words == "(empty list)"
    else if Resp.SameSpelling(args[0], "SET") then
      if |args| != 3 then words == "ERR wrong number of arguments for '" + "CONFIG SET" + "' command" else words == "OK"
    else words == "ERR Unknown subcommand '" + Upper(args[0]) + "'"
  }

  lemma {:induction false} ParameterShown(p: string)
    ensures Show(List([Quote(p), Quote("")])) == "1) \"" + p + "\"\n2) \"\""
  {
    var items := [Quote(p), Quote("")];
    assert items[1..] == [Quote("")] && [Quote("")][1..] == [];
    var texts := ["\"" + p + "\"", "\"\""];
    assert "\"" + "" + "\"" == "\"\"";
    assert Shows(items) == texts;
    assert texts[1..] == ["\"\""];
    assert Label(1) == "1) " && Label(2) == "2) ";
    assert Numbered(texts, 1) == "1) " + texts[0] + "\n" + ("2) " + "\"\"");
  }

  lemma {:induction false} ConfigReplyWords(args: seq<string>)
    ensures ConfigWords(args, ConfigReply(args))
  {
    if args == [] {
    } else {
      UpperSpells(args[0], "GET");
      UpperSpells(args[0], "SET");
      if |args| == 2 { ParameterShown(args[1]); }
    }
  }

  lemma {:induction false} ConfigRoute(c: Command)
    requires c.name == "CONFIG"
    ensures Route(c) == Say(ConfigReply(c.args))
  {
    OtherVerbs();
  }

  lemma {:induction false} ConfigOnly(args: seq<string>, words: string)
    ensures ConfigWords(args, words) <==> words == ConfigReply(args)
  {
    ConfigReplyWords(args);
  }

  lemma {:induction false} ConfigExactly(w: World, client: PubSub.Client, c: Command, now: int, w': World,
                                         reply: string)
    requires c.name == "CONFIG"
    ensures Performs(w, client, c, now, w', reply) <==> w' == w && ConfigWords(c.args, reply)
  {
    ConfigRoute(c);
    SayExactly(w, client, ConfigReply(c.args), now, w', reply);
    ConfigOnly(c.args, reply);
  }

  // ---------------------------------------------------------------------
  // Every command
  // ---------------------------------------------------------------------

  /** Each command is one of those above. */
  lemma {:induction false} EveryCommand(c: Command)
    ensures
      || (exists op :: Means(c, op)) || Misused(c) || Unreadable(c)
      || (c.name == "EXPIRE" && |c.args| == 2 && Stoi(c.args[1]).Some? && Stoi(c.args[1]).value <= 0)
      || (c.name == "SET" && |c.args| >= 2) || c.name == "PING" || c.name == "SAVE" || c.name == "INFO"
      || (c.name == "SUBSCRIBE" && c.args != []) || c.name == "UNSUBSCRIBE" || (c.name == "PUBLISH" && |c.args| == 2)
      || c.name == "CONFIG" || (!KeyName(c.name) && !ListName(c.name) && !OtherName(c.name))
  {
    if ListName(c.name) && !Misused(c) && !Unreadable(c) {
      var op := ListOp(c);
      assert Means(c, op);
    } else if KeyName(c.name) && !Misused(c) && !Unreadable(c) {
      if c.name == "EXPIRE" {
        assert Stoi(c.args[1]).value > 0 ==> Means(c, Expire(c.args[0], Stoi(c.args[1]).value));
      } else if c.name != "SET" && c.name != "PING" && c.name != "SAVE" {
        var op := KeyOp(c);
        assert Means(c, op);
      }
    }
  }

  lemma {:induction false} ListOp(c: Command) returns (op: Op)
    requires ListName(c.name) && !Misused(c) && !Unreadable(c)
    ensures ListMeans(c, op)
  {
    if c.name == "LPUSH" {
      op := LPush(c.args[0], c.args[1..]);
    } else if c.name == "RPUSH" {
      op := RPush(c.args[0], c.args[1..]);
    } else if c.name == "LPOP" {
      op := LPop(c.args[0]);
    } else if c.name == "RPOP" {
      op := RPop(c.args[0]);
    } else if c.name == "LLEN" {
      op := LLen(c.args[0]);
    } else if c.name == "LRANGE" {
      op := LRange(c.args[0], Stoi(c.args[1]).value, Stoi(c.args[2]).value);
    } else {
      op := LIndex(c.args[0], Stoi(c.args[1]).value);
    }
  }

  lemma {:induction false} KeyOp(c: Command) returns (op: Op)
    requires KeyName(c.name) && !Misused(c)
    requires c.name != "SET" && c.name != "PING" && c.name != "SAVE" && c.name != "EXPIRE"
    ensures Means(c, op)
  {
    if c.name == "GET" {
      op := Get(c.args[0]);
    } else if c.name == "DEL" {
      op := Del(c.args);
    } else if c.name == "EXISTS" {
      op := Exists(c.args);
    } else if c.name == "KEYS" {
      op := Keys;
    } else if c.name == "DBSIZE" {
      op := DbSize;
    } else if c.name == "FLUSHDB" {
      op := FlushDb;
    } else if c.name == "TTL" {
      op := Ttl(c.args[0]);
    } else {
      op := Persist(c.args[0]);
    }
  }

  // ---------------------------------------------------------------------
  // Transactions and subscription mode
  // ---------------------------------------------------------------------

  predicate ForSubscribers(name: string) {
    name == "SUBSCRIBE" || name == "UNSUBSCRIBE" || name == "PING"
  }

  lemma {:induction false} ForSubscribersExactly(c: Command)
    ensures WhileSubscribed(c) <==> ForSubscribers(c.name)
  {
    if ForSubscribers(c.name) {
      KeyVerbs();
      OtherVerbs();
    }
  }

  lemma {:induction false} SteersExactly(c: Command)
    ensures Steers(c) <==> SteeringName(c.name)
  {
    if SteeringName(c.name) { SteeringVerbs(); }
  }

  /** A subscriber is refused everything but three commands. */
  lemma {:induction false} RefusedExactly(h: Session, w: World, client: PubSub.Client, c: Command, now: int,
                                          h': Session, w': World, reply: string)
    requires Subscribed(w.subs, client) && !ForSubscribers(c.name)
    ensures Executes(h, w, client, c, now, h', w', reply) <==>
      && h' == h && w' == w
      && reply == "ERR Can't execute '" + c.name
                  + "': only (P)SUBSCRIBE / (P)UNSUBSCRIBE / PING / QUIT are allowed in this context"
  {
    ForSubscribersExactly(c);
  }

  lemma {:induction false} MultiExactly(h: Session, w: World, client: PubSub.Client, c: Command, now: int,
                                        h': Session, w': World, reply: string)
    requires !Subscribed(w.subs, client) && c.name == "MULTI"
    ensures Executes(h, w, client, c, now, h', w', reply) <==>
      && w' == w
      && if h.inMulti then h' == h && reply == "ERR MULTI calls can not be nested"
         else h' == Session(true, [], h.watched, h.snapshots) && reply == "OK"
  {
    SteeringVerbs();
  }

  lemma {:induction false} DiscardExactly(h: Session, w: World, client: PubSub.Client, c: Command, now: int,
                                          h': Session, w': World, reply: string)
    requires !Subscribed(w.subs, client) && c.name == "DISCARD"
    ensures Executes(h, w, client, c, now, h', w', reply) <==>
      && w' == w
      && if h.inMulti then h' == Session(false, [], h.watched, h.snapshots) && reply == "OK"
         else h' == h && reply == "ERR DISCARD without MULTI"
  {
    SteeringVerbs();
  }

  lemma {:induction false} WatchDirects(h: Session, w: World, client: PubSub.Client, c: Command, now: int,
                                        h': Session, w': World, reply: string)
    requires !Subscribed(w.subs, client) && c.name == "WATCH"
    ensures Executes(h, w, client, c, now, h', w', reply) <==> Watches(h, w, c, now, h', w', reply)
  {
    SteeringVerbs();
  }

  /** WATCH records, for each key in turn, its string or the length of its list, 0 for no key. */
  lemma {:induction false} WatchNamedExactly(h: Session, w: World, client: PubSub.Client, c: Command, now: int,
                                             h': Session, w': World, reply: string)
    requires !Subscribed(w.subs, client) && c.name == "WATCH"
    ensures Executes(h, w, client, c, now, h', w', reply) <==>
      if c.args == [] then h' == h && w' == w && reply == "ERR wrong number of arguments for '" + "WATCH" + "' command"
      else if h.inMulti then h' == h && w' == w && reply == "ERR WATCH inside MULTI is not allowed"
      else
        && h' == Session(false, h.queue, h.watched + c.args, h.snapshots + Records(w.store, c.args, now))
        && w' == World(Purge(w.store, Elements(c.args), now), w.subs) && reply == "OK"
  {
    WatchDirects(h, w, client, c, now, h', w', reply);
  }

  /** The queued commands one after another, and a numbered line for each reply. */
  ghost predicate Ran(w: World, client: PubSub.Client, queue: seq<Command>, now: int, w': World, reply: string) {
    exists worlds, replies ::
      && Chain(worlds, client, queue, now, replies) && worlds[0] == w && worlds[|queue|] == w'
      && reply == if queue == [] then "(empty list)" else Numbered(replies, 1)
  }

  lemma {:induction false} RanExactly(w: World, client: PubSub.Client, queue: seq<Command>, now: int, w': World,
                                      reply: string)
    ensures RunsQueue(w, client, queue, now, w', reply) <==> Ran(w, client, queue, now, w', reply)
  {
    if RunsQueue(w, client, queue, now, w', reply) {
      var worlds, replies :| Chain(worlds, client, queue, now, replies)
        && worlds[0] == w && worlds[|queue|] == w' && reply == ExecReply(replies);
      assert replies == [] <==> queue == [];
    }
    if Ran(w, client, queue, now, w', reply) {
      var worlds, replies :| Chain(worlds, client, queue, now, replies)
        && worlds[0] == w && worlds[|queue|] == w'
        && reply == if queue == [] then "(empty list)" else Numbered(replies, 1);
      assert reply == ExecReply(replies);
    }
  }

  lemma {:induction false} ExecDirects(h: Session, w: World, client: PubSub.Client, c: Command, now: int,
                                       h': Session, w': World, reply: string)
    requires !Subscribed(w.subs, client) && c.name == "EXEC"
    ensures Executes(h, w, client, c, now, h', w', reply) <==> Execs(h, w, client, now, h', w', reply)
  {
    SteeringVerbs();
  }

  lemma {:induction false} ExecNamedExactly(h: Session, w: World, client: PubSub.Client, c: Command, now: int,
                                            h': Session, w': World, reply: string)
    requires !Subscribed(w.subs, client) && c.name == "EXEC"
    ensures !h.inMulti ==>
      (Executes(h, w, client, c, now, h', w', reply) <==> h' == h && w' == w && reply == "ERR EXEC without MULTI")
    ensures h.inMulti ==>
      (Executes(h, w, client, c, now, h', w', reply) <==>
         && h' == Session(false, [], [], [])
         && if AllAsRecorded(w.store, h.snapshots, now)
            then Ran(AfterCheck(w, h, now), client, h.queue, now, w', reply)
            else w' == AfterCheck(w, h, now) && reply == "(nil)")
  {
    ExecDirects(h, w, client, c, now, h', w', reply);
    RanExactly(AfterCheck(w, h, now), client, h.queue, now, w', reply);
  }

  /** Any other command is queued inside MULTI and performed outside. */
  lemma {:induction false} QueuedExactly(h: Session, w: World, client: PubSub.Client, c: Command, now: int,
                                         h': Session, w': World, reply: string)
    requires (!Subscribed(w.subs, client) || ForSubscribers(c.name)) && !SteeringName(c.name)
    ensures Executes(h, w, client, c, now, h', w', reply) <==>
      if h.inMulti then w' == w && reply == "QUEUED" && h' == Session(true, h.queue + [c], h.watched, h.snapshots)
      else h' == h && Performs(w, client, c, now, w', reply)
  {
    ForSubscribersExactly(c);
    SteersExactly(c);
  }

  /** The check of EXEC reads a key exactly if every snapshot before one of that key is as recorded. */
  lemma {:induction false} CheckedExactly(s: Store, snaps: seq<Snapshot>, now: int, k: string)
    ensures k in Checked(s, snaps, now) <==>
      exists i :: 0 <= i < |snaps| && snaps[i].key == k && AllAsRecorded(s, snaps[..i], now)
    decreases |snaps|
  {
    if snaps == [] {
    } else {
      CheckedExactly(s, snaps[1..], now, k);
      if AsRecorded(s, snaps[0], now) {
        if i :| 0 <= i < |snaps[1..]| && snaps[1..][i].key == k && AllAsRecorded(s, snaps[1..][..i], now) {
          LaterChecked(s, snaps, now, i + 1);
        }
        if i :| 0 < i < |snaps| && snaps[i].key == k && AllAsRecorded(s, snaps[..i], now) {
          EarlierChecked(s, snaps, now, i);
        }
      }
      if i :| 0 <= i < |snaps| && snaps[i].key == k && AllAsRecorded(s, snaps[..i], now) {
        if i > 0 { assert snaps[..i][0] == snaps[0]; }
      }
      if snaps[0].key == k { assert AllAsRecorded(s, snaps[..0], now); }
    }
  }

  lemma {:induction false} LaterChecked(s: Store, snaps: seq<Snapshot>, now: int, i: nat)
    requires 0 < i <= |snaps| && AsRecorded(s, snaps[0], now) && AllAsRecorded(s, snaps[1..][..i - 1], now)
    ensures AllAsRecorded(s, snaps[..i], now)
  {
    forall j | 0 <= j < i ensures AsRecorded(s, snaps[..i][j], now) {
      if j > 0 { assert snaps[1..][..i - 1][j - 1] == snaps[j]; }
    }
  }

  lemma {:induction false} EarlierChecked(s: Store, snaps: seq<Snapshot>, now: int, i: nat)
    requires 0 < i <= |snaps| && AllAsRecorded(s, snaps[..i], now)
    ensures AllAsRecorded(s, snaps[1..][..i - 1], now)
  {
    var rest := snaps[1..][..i - 1];
    forall j | 0 <= j < |rest| ensures AsRecorded(s, rest[j], now) {
      assert snaps[..i][j + 1] == rest[j];
    }
  }
}
