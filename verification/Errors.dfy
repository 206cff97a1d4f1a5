/** What an error reply means, and what comes instead of one. */
module Errors {
  import opened Base
  import opened Store
  import opened Parser
  import opened RoundTrip
  import opened Commands
  import Expiry
  import ListReply
  import PubSub
  import Reply
  import Text

  // ---------------------------------------------------------------------
  // Values of the wrong type
  // ---------------------------------------------------------------------

  /** The key of the operation holds a live value of the other type. */
  ghost predicate WrongKind(s: Store, op: Op, now: int) {
    match op
    case Get(k) => k in Live(s, now) && Live(s, now)[k].value.Lst?
    case LPush(k, _) => HoldsString(Live(s, now), k)
    case RPush(k, _) => HoldsString(Live(s, now), k)
    case LPop(k) => HoldsString(Live(s, now), k)
    case RPop(k) => HoldsString(Live(s, now), k)
    case LRange(k, _, _) => HoldsString(Live(s, now), k)
    case LLen(k) => HoldsString(Live(s, now), k)
    case LIndex(k, _) => HoldsString(Live(s, now), k)
    case _ => false
  }

  predicate ChecksType(op: Op) {
    op.LPush? || op.RPush? || op.LLen?
  }

  lemma {:induction false} WrongKindAnswer(s: Store, op: Op, now: int)
    requires Consistent(s) && WrongKind(s, op, now)
    ensures AnswerTo(s, op, now) ==
      if ChecksType(op) then Count(-1) else if op.LRange? then Items([]) else Missing
    ensures !ChecksType(op) ==> AnswerTo(Erase(s, {op.key}), op, now) == AnswerTo(s, op, now)
  {
    var gone := Erase(s, {op.key});
    Expiry.PurgedListAt(s, op.key, now);
    Expiry.PurgedListAt(gone, op.key, now);
    Expiry.LiveLookup(s, op.key, now);
    Expiry.LiveLookup(gone, op.key, now);
  }

  /** On a value of the wrong type only LPUSH, RPUSH and LLEN report the error;
      the other commands answer as if there were no such key. */
  lemma {:induction false} WrongTypeExactly(s: Store, op: Op, now: int, reply: string)
    requires Consistent(s) && WrongKind(s, op, now) && Replies(s, op, now, reply)
    ensures reply == WRONGTYPE <==> ChecksType(op)
    ensures !ChecksType(op) ==> Replies(Erase(s, {op.key}), op, now, reply)
    ensures Live(Apply(s, op, now), now) == Live(s, now)
  {
    WrongKindAnswer(s, op, now);
    Expiry.Refines(s, op, now);
    assert WRONGTYPE[0] == 'W' && "(nil)"[0] != 'W' && "(empty list)"[0] != 'W';
  }

  /** LPOP of a string: the reply is nil, as for no key. */
  lemma {:induction false} WrongTypeInput()
    ensures
      var s := Store(map["k" := "v"], map[], map[]);
      && WrongKind(s, LPop("k"), 0) && Replies(s, LPop("k"), 0, "(nil)") && Replies(EMPTY, LPop("k"), 0, "(nil)")
      && WrongKind(s, LLen("k"), 0) && Replies(s, LLen("k"), 0, WRONGTYPE)
  {
    var s := Store(map["k" := "v"], map[], map[]);
    Expiry.LiveLookup(s, "k", 0);
    WrongKindAnswer(s, LPop("k"), 0);
    WrongKindAnswer(s, LLen("k"), 0);
    Expiry.PurgedListAt(EMPTY, "k", 0);
    Expiry.LiveLookup(EMPTY, "k", 0);
  }

  // ---------------------------------------------------------------------
  // Errors and the store
  // ---------------------------------------------------------------------

  /** SET with an expiry option that is refused, after the value has been stored. */
  predicate BadExpiryOption(c: Command) {
    && VerbOf(c.name) == SET && |c.args| >= 4 && Text.Upper(c.args[2]) == "EX"
    && (Text.Stoi(c.args[3]).None? || Text.Stoi(c.args[3]).value <= 0)
  }

  ghost predicate SameFrom(s: Store, t: Store, now: int) {
    forall later :: now <= later ==> Live(s, later) == Live(t, later)
  }

  lemma {:induction false} PurgeSame(s: Store, keys: set<string>, now: int)
    requires Consistent(s)
    ensures SameFrom(Purge(s, keys, now), s, now)
  {
    forall later | now <= later ensures Live(Purge(s, keys, now), later) == Live(s, later) {
      Expiry.PurgeInvisible(s, keys, now, later);
    }
  }

  lemma {:induction false} ViewsSame(s: Store, t: Store, now: int)
    requires Live(s, now) == Live(t, now)
    ensures SameFrom(s, t, now)
  {
    forall later | now <= later ensures Live(s, later) == Live(t, later) {
      Expiry.LiveAges(s, now, later);
      Expiry.LiveAges(t, now, later);
    }
  }

  /** How a reply text other than an error starts. */
  lemma {:induction false} ShowStarts(r: Response)
    requires !r.Error? && !r.Status?
    ensures Show(r) != [] && (Show(r)[0] == '(' || Show(r)[0] == '"' || Show(r)[0] == '1')
  {
    if r.List? && r.items != [] { ListReply.LooksLikeList(Shows(r.items)); }
  }

  lemma {:induction false} ErrorStarts(text: string)
    requires Reply.IsError(text)
    ensures text != [] && (text[0] == 'E' || text[0] == 'W' || text[0] == 'N')
  {
    assert Reply.StartsWith(text, "ERR") ==> "ERR"[0] == text[0];
    assert Reply.StartsWith(text, "WRONGTYPE ") ==> "WRONGTYPE "[0] == text[0];
    assert Reply.StartsWith(text, "NOAUTH ") ==> "NOAUTH "[0] == text[0];
  }

  lemma {:induction false} KeysNoError(s: Store, now: int, reply: string)
    requires Replies(s, Keys, now, reply)
    ensures !Reply.IsError(reply)
  {
    var order :| Ordering(order, s, now) && reply == Show(List(ListReply.Quotes(order)));
    ShowStarts(List(ListReply.Quotes(order)));
    if Reply.IsError(reply) { ErrorStarts(reply); }
  }

  /** An operation replies with an error only for a value of the wrong type. */
  lemma {:induction false} OpErrors(s: Store, op: Op, now: int, reply: string)
    requires Replies(s, op, now, reply) && Reply.IsError(reply)
    ensures ChecksType(op) && AnswerTo(s, op, now) == Count(-1)
  {
    ErrorStarts(reply);
    if op.Keys? {
      KeysNoError(s, now, reply);
    } else {
      ErrorAnswer(op, AnswerTo(s, op, now), reply);
    }
  }

  lemma {:induction false} ErrorAnswer(op: Op, a: Answer, reply: string)
    requires !a.Names? && reply == Show(ResponseTo(op, a)) && reply != []
    requires reply[0] == 'E' || reply[0] == 'W' || reply[0] == 'N'
    ensures ChecksType(op) && a == Count(-1)
  {
    var r := ResponseTo(op, a);
    if !r.Status? && !r.Error? {
      ShowStarts(r);
    }
  }

  lemma {:induction false} WrongTypeKeepsView(s: Store, op: Op, now: int)
    requires Consistent(s) && ChecksType(op) && AnswerTo(s, op, now) == Count(-1)
    ensures Live(Apply(s, op, now), now) == Live(s, now)
  {
    Expiry.AnswersFromView(s, op, now);
    Expiry.Refines(s, op, now);
  }

  /** SET, seen from the live view. */
  lemma {:induction false} WriteKeepsExactly(s: Store, key: string, value: string, now: int)
    requires Consistent(s)
    ensures SameFrom(Apply(s, Set(key, value), now), s, now) <==>
      Lookup(Live(s, now), key) == Some(Entry(Str(value), None))
  {
    var t := Apply(s, Set(key, value), now);
    Expiry.Refines(s, Set(key, value), now);
    var v := Live(s, now);
    if Lookup(v, key) == Some(Entry(Str(value), None)) {
      assert v[key := Entry(Str(value), None)] == v;
      ViewsSame(t, s, now);
    } else {
      assert Lookup(Live(t, now), key) == Some(Entry(Str(value), None));
      assert Live(t, now) != Live(s, now);
    }
  }

  /** The reply is an error and the plan is not one that writes: nothing visible changes. */
  lemma {:induction false} ReadErrorKeeps(w: World, client: PubSub.Client, plan: Plan, now: int, w': World,
                                          reply: string)
    requires Consistent(w.store) && Does(w, client, plan, now, w', reply) && Reply.IsError(reply)
    requires plan.Say? || plan.Ask? || plan.Save? || plan.Info?
    ensures w'.subs == w.subs && SameFrom(w'.store, w.store, now)
  {
    match plan
    case Ask(op) =>
      OpErrors(w.store, op, now, reply);
      WrongTypeKeepsView(w.store, op, now);
      ViewsSame(Apply(w.store, op, now), w.store, now);
      OneOp(w.store, op, now);
    case Info =>
      PurgeSame(w.store, Stored(w.store), now);
      OneOp(w.store, DbSize, now);
    case _ =>
  }

  lemma {:induction false} OneOp(s: Store, op: Op, now: int)
    ensures ApplyAll(s, [op], now) == Apply(s, op, now)
  {
    assert [op][1..] == [];
  }

  lemma {:induction false} NoticeStarts(word: string, notices: seq<PubSub.Notice>)
    requires word != [] && notices != []
    ensures NoticeLines(word, notices) != [] && NoticeLines(word, notices)[0] == word[0]
  {
  }

  /** The commands of subscription mode and PUBLISH never reply with an error of this kind. */
  lemma {:induction false} PubSubNoError(w: World, client: PubSub.Client, plan: Plan, now: int, w': World,
                                         reply: string)
    requires Does(w, client, plan, now, w', reply)
    requires (plan.Join? && plan.names != []) || plan.Leave? || plan.Tell?
    ensures reply != [] && (reply[0] == 's' || reply[0] == 'u' || reply[0] == '(')
  {
    match plan
    case Join(names) =>
      PubSub.JoinNoticeAt(w.subs, client, names, 0);
      NoticeStarts("subscribe ", PubSub.JoinNotices(w.subs, client, names));
    case Leave(names) =>
      var targets :| Leaves(w.subs, client, names, targets) && reply == LeaveReply(w.subs, client, targets);
      LeaveStarts(w.subs, client, targets);
    case Tell(channel) => ShowStarts(Integer(|PubSub.On(w'.subs, channel)|));
  }

  lemma {:induction false} LeaveStarts(subs: PubSub.Subscriptions, client: PubSub.Client, targets: seq<string>)
    ensures LeaveReply(subs, client, targets) != [] && LeaveReply(subs, client, targets)[0] == 'u'
  {
    if targets == [] {
      NoticeStarts("unsubscribe ", [PubSub.Notice("*", 0)]);
    } else {
      PubSub.LeaveNoticeAt(subs, client, targets, 0);
      NoticeStarts("unsubscribe ", PubSub.LeaveNotices(subs, client, targets));
    }
  }

  lemma {:induction false} ErrorTexts()
    ensures Reply.IsError(NOT_AN_INTEGER) && Reply.IsError(BadExpiry("SET")) && !Reply.IsError("OK")
  {
    assert Reply.StartsWith(NOT_AN_INTEGER, "ERR") && Reply.StartsWith(BadExpiry("SET"), "ERR");
    if Reply.IsError("OK") { ErrorStarts("OK"); }
  }

  lemma {:induction false} WriteRoute(c: Command)
    ensures Route(c).Write? ==>
      && VerbOf(c.name) == SET && |c.args| >= 2 && Route(c).key == c.args[0] && Route(c).value == c.args[1]
      && (Reply.IsError(Route(c).text) <==> BadExpiryOption(c))
      && (Reply.IsError(Route(c).text) ==> Route(c).seconds == None)
    ensures BadExpiryOption(c) ==> Route(c).Write?
    ensures Route(c).Join? ==> Route(c).names != []
  {
    ErrorTexts();
  }

  /** An error reply leaves the store looking as it was, now and later, exactly
      when it does not come from the expiry option of a SET that changed something. */
  lemma {:induction false} ErrorKeepsStoreExactly(w: World, client: PubSub.Client, c: Command, now: int, w': World,
                                                  reply: string)
    requires Consistent(w.store) && Performs(w, client, c, now, w', reply) && Reply.IsError(reply)
    ensures w'.subs == w.subs
    ensures SameFrom(w'.store, w.store, now) <==>
      !BadExpiryOption(c) || Lookup(Live(w.store, now), c.args[0]) == Some(Entry(Str(c.args[1]), None))
  {
    var plan := Route(c);
    WriteRoute(c);
    match plan
    case Write(key, value, seconds, text) =>
      OneOp(w.store, Set(key, value), now);
      assert Ops(plan) == [Set(key, value)];
      WriteKeepsExactly(w.store, key, value, now);
    case Join(_) => PubSubNoError(w, client, plan, now, w', reply); ErrorStarts(reply);
    case Leave(_) => PubSubNoError(w, client, plan, now, w', reply); ErrorStarts(reply);
    case Tell(_) => PubSubNoError(w, client, plan, now, w', reply); ErrorStarts(reply);
    case _ => ReadErrorKeeps(w, client, plan, now, w', reply);
  }

  /** SET k v EX 0 on an empty store: an error, and k holds v. */
  lemma {:induction false} SetErrorWrites(client: PubSub.Client)
    ensures
      var c := Command("SET", ["k", "v", "EX", "0"]);
      var w, w' := World(EMPTY, {}), World(Apply(EMPTY, Set("k", "v"), 0), {});
      && Performs(w, client, c, 0, w', BadExpiry("SET")) && Reply.IsError(BadExpiry("SET"))
      && "k" !in Live(w.store, 0) && Lookup(Live(w'.store, 0), "k") == Some(Entry(Str("v"), None))
  {
    var c := Command("SET", ["k", "v", "EX", "0"]);
    assert Text.Upper("EX") == "EX";
    Text.ReadBack(0);
    assert Text.ToString(0) == "0";
    assert Route(c) == Write("k", "v", None, BadExpiry("SET"));
    OneOp(EMPTY, Set("k", "v"), 0);
    assert Ops(Route(c)) == [Set("k", "v")];
    ErrorTexts();
    var s := Apply(EMPTY, Set("k", "v"), 0);
    Expiry.LiveLookup(s, "k", 0);
    Expiry.LiveLookup(EMPTY, "k", 0);
  }

  // ---------------------------------------------------------------------
  // Errors on the wire
  // ---------------------------------------------------------------------

  /** The error for an unknown command repeats its name; with CRLF in the name
      the client does not show it as it was written. */
  lemma {:induction false} UnknownWithCrlf(name: string)
    requires HasCrlf(name)
    ensures Reply.IsError(Unknown(name)) && !RoundTrips(Unknown(name))
  {
    var head := "ERR unknown command '";
    var i :| Text.CrlfAt(name, i);
    assert Unknown(name) == head + name + "'";
    assert Reply.StartsWith(Unknown(name), "ERR");
    assert Text.CrlfAt(Unknown(name), |head| + i);
    ErrorTripsExactly(Unknown(name));
  }

  lemma {:induction false} OtherAnswers(w: World, client: PubSub.Client, c: Command, now: int)
    requires VerbOf(c.name) == OTHER
    ensures Performs(w, client, c, now, w, Unknown(c.name))
  {
  }

  lemma {:induction false} NoVerbStartsWithA(name: string)
    requires name != [] && name[0] == 'A'
    ensures VerbOf(name) == OTHER
  {
  }

  lemma {:induction false} UnknownNamed(w: World, client: PubSub.Client, c: Command, now: int)
    requires c.name != [] && c.name[0] == 'A' && HasCrlf(c.name)
    ensures Performs(w, client, c, now, w, Unknown(c.name)) && !RoundTrips(Unknown(c.name))
  {
    NoVerbStartsWithA(c.name);
    OtherAnswers(w, client, c, now);
    UnknownWithCrlf(c.name);
  }

  lemma {:induction false} UnknownWithCrlfInput(w: World, client: PubSub.Client, now: int)
    ensures
      var c := Command("A\r\nB", []);
      Performs(w, client, c, now, w, Unknown(c.name)) && !RoundTrips(Unknown(c.name))
  {
    assert Text.CrlfAt("A\r\nB", 1);
    UnknownNamed(w, client, Command("A\r\nB", []), now);
  }
}
