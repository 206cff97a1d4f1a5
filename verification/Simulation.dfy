/**
 Worlds that look alike.  A command run in either of two such worlds can do the
 same in both: equal replies, but for the count of DEL, equal subscriptions, and
 worlds that look alike again.
 */
module Simulation {
  import opened Base
  import opened Store
  import opened Parser
  import opened RoundTrip
  import opened Commands
  import Expiry
  import ListReply
  import PubSub
  import Text

  /** Same live view, same subscriptions. */
  ghost predicate Alike(a: World, b: World, now: int) {
    Consistent(a.store) && Consistent(b.store) && Live(a.store, now) == Live(b.store, now) && a.subs == b.subs
  }

  lemma {:induction false} AlikeLater(a: World, b: World, now: int, later: int)
    requires Alike(a, b, now) && now <= later
    ensures Alike(a, b, later)
  {
    Expiry.LiveAges(a.store, now, later);
    Expiry.LiveAges(b.store, now, later);
  }

  predicate Counts(c: Command) {
    VerbOf(c.name) == DEL
  }

  // ---------------------------------------------------------------------
  // One command
  // ---------------------------------------------------------------------

  lemma {:induction false} ApplyAlike(s: Store, t: Store, op: Op, now: int)
    requires Consistent(s) && Consistent(t) && Live(s, now) == Live(t, now)
    ensures Consistent(Apply(s, op, now)) && Consistent(Apply(t, op, now))
    ensures Live(Apply(s, op, now), now) == Live(Apply(t, op, now), now)
  {
    Expiry.Refines(s, op, now);
    Expiry.Refines(t, op, now);
  }

  lemma {:induction false} ApplyAllAlike(s: Store, t: Store, ops: seq<Op>, now: int)
    requires Consistent(s) && Consistent(t) && Live(s, now) == Live(t, now)
    ensures Consistent(ApplyAll(s, ops, now)) && Consistent(ApplyAll(t, ops, now))
    ensures Live(ApplyAll(s, ops, now), now) == Live(ApplyAll(t, ops, now), now)
    decreases |ops|
  {
    if ops == [] {
    } else {
      ApplyAlike(s, t, ops[0], now);
      ApplyAllAlike(Apply(s, ops[0], now), Apply(t, ops[0], now), ops[1..], now);
    }
  }

  lemma {:induction false} OrderingAlike(s: Store, t: Store, now: int, order: seq<string>)
    requires Consistent(s) && Consistent(t) && Live(s, now) == Live(t, now) && Ordering(order, s, now)
    ensures Ordering(order, t, now)
  {
    Expiry.LiveKeys(s, now);
    Expiry.LiveKeys(t, now);
    Expiry.SizeFromView(s, now);
    Expiry.SizeFromView(t, now);
  }

  lemma {:induction false} RepliesAlike(s: Store, t: Store, op: Op, now: int, reply: string)
    requires Consistent(s) && Consistent(t) && Live(s, now) == Live(t, now)
    requires !op.Del? && Replies(s, op, now, reply)
    ensures Replies(t, op, now, reply)
  {
    if op.Keys? {
      var order :| Ordering(order, s, now) && reply == Show(List(ListReply.Quotes(order)));
      OrderingAlike(s, t, now, order);
    } else {
      Expiry.AnswersFromView(s, op, now);
      Expiry.AnswersFromView(t, op, now);
    }
  }

  lemma {:induction false} OutcomeAlike(a: World, b: World, client: PubSub.Client, plan: Plan, now: int,
                                        subs: PubSub.Subscriptions, reply: string)
    requires Alike(a, b, now) && Outcome(a, client, plan, now, subs, reply) && !(plan.Ask? && plan.op.Del?)
    ensures Outcome(b, client, plan, now, subs, reply)
  {
    match plan
    case Ask(op) => RepliesAlike(a.store, b.store, op, now, reply);
    case Info =>
      Expiry.AnswersFromView(a.store, DbSize, now);
      Expiry.AnswersFromView(b.store, DbSize, now);
    case _ =>
  }

  /** The world that a command leaves behind when run in `b` instead. */
  function There(b: World, c: Command, now: int, subs: PubSub.Subscriptions): World {
    World(ApplyAll(b.store, Ops(Route(c)), now), subs)
  }

  /** The reply there: the same, unless it is the count of a DEL. */
  function ReplyThere(b: World, c: Command, now: int, reply: string): string {
    if Route(c).Ask? && Route(c).op.Del? then Show(ResponseTo(Route(c).op, AnswerTo(b.store, Route(c).op, now)))
    else reply
  }

  lemma {:induction false} OnlyDelCounts(c: Command)
    ensures Route(c).Ask? && Route(c).op.Del? ==> Counts(c)
  {
  }

  /** What a command does in one world it can do in any world that looks alike. */
  lemma {:induction false} PerformsAlike(a: World, b: World, client: PubSub.Client, c: Command, now: int,
                                         a': World, reply: string)
    requires Alike(a, b, now) && Performs(a, client, c, now, a', reply)
    ensures Performs(b, client, c, now, There(b, c, now, a'.subs), ReplyThere(b, c, now, reply))
    ensures Alike(a', There(b, c, now, a'.subs), now)
    ensures !Counts(c) ==> ReplyThere(b, c, now, reply) == reply
  {
    var plan := Route(c);
    OnlyDelCounts(c);
    ApplyAllAlike(a.store, b.store, Ops(plan), now);
    if !(plan.Ask? && plan.op.Del?) {
      OutcomeAlike(a, b, client, plan, now, a'.subs, reply);
    }
  }

  // ---------------------------------------------------------------------
  // Removed keys
  // ---------------------------------------------------------------------

  /** All that the three maps hold under one key. */
  datatype Cell = Cell(text: Option<string>, items: Option<seq<string>>, deadline: Option<int>)

  const NOTHING := Cell(None, None, None)

  function CellAt(s: Store, key: string): Cell {
    Cell(if key in s.strings then Some(s.strings[key]) else None,
         if key in s.lists then Some(s.lists[key]) else None,
         if key in s.expiry then Some(s.expiry[key]) else None)
  }

  lemma {:induction false} SameCells(s: Store, t: Store)
    requires forall k :: CellAt(s, k) == CellAt(t, k)
    ensures s == t
  {
    forall k
      ensures k in s.strings <==> k in t.strings
      ensures k in s.strings ==> s.strings[k] == t.strings[k]
      ensures k in s.lists <==> k in t.lists
      ensures k in s.lists ==> s.lists[k] == t.lists[k]
      ensures k in s.expiry <==> k in t.expiry
      ensures k in s.expiry ==> s.expiry[k] == t.expiry[k]
    {
      assert CellAt(s, k) == CellAt(t, k);
    }
    assert s.strings == t.strings && s.lists == t.lists && s.expiry == t.expiry;
  }

  predicate Stale(cell: Cell, now: int) {
    cell.deadline.Some? && cell.deadline.value <= now
  }

  predicate Held(cell: Cell) {
    cell.text.Some? || cell.items.Some?
  }

  function Drop(cell: Cell, now: int): Cell {
    if Stale(cell, now) then NOTHING else cell
  }

  function PurgeCell(keys: set<string>, key: string, cell: Cell, now: int): Cell {
    if key in keys then Drop(cell, now) else cell
  }

  function ItemsIn(cell: Cell): seq<string> {
    if cell.items.Some? then cell.items.value else []
  }

  function PutItems(cell: Cell, items: seq<string>): Cell {
    if items == [] then Cell(cell.text, None, None) else cell.(items := Some(items))
  }

  /** Every operation acts on each key by itself. */
  function ApplyCell(op: Op, key: string, cell: Cell, now: int): Cell {
    var d := Drop(cell, now);
    match op
    case Set(k, x) => if key == k then Cell(Some(x), None, None) else cell
    case Get(k) => if key == k then d else cell
    case Del(ks) => if key in ks && Held(cell) then NOTHING else cell
    case Exists(ks) => if key in ks then d else cell
    case Keys => if Held(cell) then d else cell
    case DbSize => if Held(cell) then d else cell
    case FlushDb => NOTHING
    case LPush(k, xs) =>
      if key != k then cell else if d.text.Some? then d else d.(items := Some(Reverse(xs) + ItemsIn(d)))
    case RPush(k, xs) =>
      if key != k then cell else if d.text.Some? then d else d.(items := Some(ItemsIn(d) + xs))
    case LPop(k) =>
      if key != k then cell
      else if d.items.None? then d
      else PutItems(d, if ItemsIn(d) == [] then [] else ItemsIn(d)[1..])
    case RPop(k) =>
      if key != k then cell
      else if d.items.None? then d
      else PutItems(d, if ItemsIn(d) == [] then [] else ItemsIn(d)[..|ItemsIn(d)| - 1])
    case LRange(k, _, _) => if key == k then d else cell
    case LLen(k) => if key == k then d else cell
    case LIndex(k, _) => if key == k then d else cell
    case Expire(k, seconds) =>
      if key != k || !Held(cell) then cell
      else if Stale(cell, now) then NOTHING else cell.(deadline := Some(SecondsAfter(now, seconds)))
    case Ttl(k) => if key == k && Held(cell) then d else cell
    case Persist(k) =>
      if key != k || !Held(cell) then cell
      else if Stale(cell, now) then NOTHING else cell.(deadline := None)
  }

  lemma {:induction false} PurgedCell(s: Store, keys: set<string>, now: int, key: string)
    ensures CellAt(Purge(s, keys, now), key) == PurgeCell(keys, key, CellAt(s, key), now)
  {
  }

  lemma {:induction false} ReadCell(s: Store, op: Op, now: int, key: string)
    requires op.Get? || op.Exists? || op.Keys? || op.DbSize? || op.LRange? || op.LLen? || op.LIndex? || op.Ttl?
    ensures CellAt(Apply(s, op, now), key) == ApplyCell(op, key, CellAt(s, key), now)
  {
    if op.Exists? {
      PurgedCell(s, Elements(op.keys), now, key);
    } else if op.Keys? || op.DbSize? {
      PurgedCell(s, Stored(s), now, key);
    } else {
      PurgedCell(s, {op.key}, now, key);
    }
  }

  lemma {:induction false} PushCell(s: Store, op: Op, now: int, key: string)
    requires op.LPush? || op.RPush?
    ensures CellAt(Apply(s, op, now), key) == ApplyCell(op, key, CellAt(s, key), now)
  {
    PurgedCell(s, {op.key}, now, key);
    PurgedCell(s, {op.key}, now, op.key);
  }

  lemma {:induction false} PutCell(s: Store, k: string, list: seq<string>, key: string)
    ensures CellAt(PutList(s, k, list), key) == if key == k then PutItems(CellAt(s, k), list) else CellAt(s, key)
  {
  }

  lemma {:induction false} PopCell(s: Store, op: Op, now: int, key: string)
    requires op.LPop? || op.RPop?
    ensures CellAt(Apply(s, op, now), key) == ApplyCell(op, key, CellAt(s, key), now)
  {
    var p := Purge(s, {op.key}, now);
    PurgedCell(s, {op.key}, now, key);
    PurgedCell(s, {op.key}, now, op.key);
    if op.key in p.lists {
      var list := p.lists[op.key];
      PutCell(p, op.key, if list == [] then [] else list[1..], key);
      PutCell(p, op.key, if list == [] then [] else list[..|list| - 1], key);
    }
  }

  lemma {:induction false} WriteCell(s: Store, op: Op, now: int, key: string)
    requires op.Set? || op.Del? || op.FlushDb?
    ensures CellAt(Apply(s, op, now), key) == ApplyCell(op, key, CellAt(s, key), now)
  {
  }

  lemma {:induction false} DeadlineCell(s: Store, op: Op, now: int, key: string)
    requires op.Expire? || op.Persist?
    ensures CellAt(Apply(s, op, now), key) == ApplyCell(op, key, CellAt(s, key), now)
  {
    PurgedCell(s, {op.key}, now, key);
  }

  lemma {:induction false} ApplyAt(s: Store, op: Op, now: int, key: string)
    ensures CellAt(Apply(s, op, now), key) == ApplyCell(op, key, CellAt(s, key), now)
  {
    if op.Set? || op.Del? || op.FlushDb? {
      WriteCell(s, op, now, key);
    } else if op.LPush? || op.RPush? {
      PushCell(s, op, now, key);
    } else if op.LPop? || op.RPop? {
      PopCell(s, op, now, key);
    } else if op.Expire? || op.Persist? {
      DeadlineCell(s, op, now, key);
    } else {
      ReadCell(s, op, now, key);
    }
  }

  /** The handler never sets a deadline that has passed. */
  predicate Ahead(op: Op) {
    op.Expire? ==> op.seconds > 0
  }

  lemma {:induction false} CellCommutes(op: Op, key: string, cell: Cell, keys: set<string>, now: int)
    requires Ahead(op)
    ensures ApplyCell(op, key, PurgeCell(keys, key, cell, now), now) ==
      PurgeCell(keys, key, ApplyCell(op, key, cell, now), now)
  {
  }

  /** Removing expired keys before an operation is removing them after it. */
  lemma {:induction false} PurgeFirst(s: Store, op: Op, keys: set<string>, now: int)
    requires Ahead(op)
    ensures Apply(Purge(s, keys, now), op, now) == Purge(Apply(s, op, now), keys, now)
  {
    var first, last := Apply(Purge(s, keys, now), op, now), Purge(Apply(s, op, now), keys, now);
    forall k ensures CellAt(first, k) == CellAt(last, k) {
      PurgedCell(s, keys, now, k);
      ApplyAt(Purge(s, keys, now), op, now, k);
      ApplyAt(s, op, now, k);
      PurgedCell(Apply(s, op, now), keys, now, k);
      CellCommutes(op, k, CellAt(s, k), keys, now);
    }
    SameCells(first, last);
  }

  lemma {:induction false} PurgeFirstAll(s: Store, ops: seq<Op>, keys: set<string>, now: int)
    requires forall i :: 0 <= i < |ops| ==> Ahead(ops[i])
    ensures ApplyAll(Purge(s, keys, now), ops, now) == Purge(ApplyAll(s, ops, now), keys, now)
    decreases |ops|
  {
    if ops == [] {
    } else {
      assert Ahead(ops[0]);
      PurgeFirst(s, ops[0], keys, now);
      PurgeFirstAll(Apply(s, ops[0], now), ops[1..], keys, now);
    }
  }

  lemma {:induction false} RouteAhead(c: Command)
    ensures forall i :: 0 <= i < |Ops(Route(c))| ==> Ahead(Ops(Route(c))[i])
  {
  }

  /** The named keys that are expired, still stored, and among `keys`. */
  ghost predicate NamesStale(named: seq<string>, s: Store, keys: set<string>, now: int) {
    exists k :: k in named && k in keys && k in Stored(s) && Expired(s, k, now)
  }

  lemma {:induction false} CountWithout(named: set<string>, all: set<string>, gone: set<string>)
    ensures |named * (all - gone)| == |named * all| <==> named * (all * gone) == {}
  {
    Expiry.SplitCount(named, all, all - gone);
    assert all - (all - gone) == all * gone;
  }

  /** Removing expired keys first changes the count of a DEL exactly when it names one of them. */
  lemma {:induction false} DelCountAfterPurge(s: Store, p: Store, named: seq<string>, keys: set<string>, now: int)
    requires p == Purge(s, keys, now)
    ensures AnswerTo(p, Del(named), now) == AnswerTo(s, Del(named), now) <==> !NamesStale(named, s, keys, now)
  {
    var gone := set k | k in keys && Expired(s, k, now);
    NamedStale(s, named, keys, now, gone);
    DelAnswers(s, p, named, gone, now);
  }

  lemma {:induction false} DelAnswers(s: Store, p: Store, named: seq<string>, gone: set<string>, now: int)
    requires p == Erase(s, gone)
    ensures AnswerTo(p, Del(named), now) == AnswerTo(s, Del(named), now) <==> Elements(named) * (Stored(s) * gone) == {}
  {
    DelCounts(s, named, gone);
  }

  lemma {:induction false} DelCounts(s: Store, named: seq<string>, gone: set<string>)
    ensures |Elements(named) * Stored(Erase(s, gone))| == |Elements(named) * Stored(s)| <==>
            Elements(named) * (Stored(s) * gone) == {}
  {
    assert Stored(Erase(s, gone)) == Stored(s) - gone;
    CountWithout(Elements(named), Stored(s), gone);
  }

  lemma {:induction false} NamedStale(s: Store, named: seq<string>, keys: set<string>, now: int, gone: set<string>)
    requires gone == set k | k in keys && Expired(s, k, now)
    ensures Elements(named) * (Stored(s) * gone) == {} <==> !NamesStale(named, s, keys, now)
  {
    var both := Elements(named) * (Stored(s) * gone);
    if NamesStale(named, s, keys, now) {
      var k :| k in named && k in keys && k in Stored(s) && Expired(s, k, now);
      assert k in both;
    } else {
      forall k ensures k !in both {
      }
    }
  }

  /** Counts are told apart by their text. */
  lemma {:induction false} CountTexts(op: Op, a: int, b: int)
    requires op.Del? && Show(ResponseTo(op, Count(a))) == Show(ResponseTo(op, Count(b)))
    ensures a == b
  {
    var head := "(integer) ";
    assert (head + Text.ToString(a))[10..] == Text.ToString(a) && (head + Text.ToString(b))[10..] == Text.ToString(b);
    Text.ReadBack(a);
    Text.ReadBack(b);
  }

  lemma {:induction false} DelReply(w: World, client: PubSub.Client, c: Command, now: int, w': World, reply: string)
    requires Counts(c) && c.args != [] && Performs(w, client, c, now, w', reply)
    ensures reply == Show(ResponseTo(Del(c.args), AnswerTo(w.store, Del(c.args), now)))
  {
  }

  /** The same of the replies. */
  lemma {:induction false} DelRepliesExactly(s: Store, t: Store, c: Command, now: int, x: string, y: string,
                                             keys: set<string>)
    requires x == Show(ResponseTo(Del(c.args), AnswerTo(s, Del(c.args), now)))
    requires y == Show(ResponseTo(Del(c.args), AnswerTo(t, Del(c.args), now)))
    requires s == Purge(t, keys, now)
    ensures x == y <==> !NamesStale(c.args, t, keys, now)
  {
    DelCountAfterPurge(t, s, c.args, keys, now);
    if x == y { CountTexts(Del(c.args), AnswerTo(s, Del(c.args), now).count, AnswerTo(t, Del(c.args), now).count); }
  }
}
