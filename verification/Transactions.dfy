/**
 MULTI, EXEC, DISCARD and WATCH of one command handler, as steps of a session
 in a world that other clients may change between the steps.
 */
module Transactions {
  import opened Base
  import opened Store
  import opened Numbering
  import opened Parser
  import opened Commands
  import Expiry
  import ListLaws
  import ListReply
  import PubSub

  // ---------------------------------------------------------------------
  // Watching
  // ---------------------------------------------------------------------

  /** What WATCH records of a key. */
  datatype Snapshot = Snapshot(key: string, existed: bool, text: Option<string>, listSize: int)

  /** What WATCH can see of a key: a string, or the length of a list, 0 for no key. */
  datatype Sight = SeenText(text: string) | SeenLength(length: nat)

  function Look(s: Store, key: string, now: int): Sight {
    if key in LiveStrings(s, now) then SeenText(s.strings[key])
    else SeenLength(|ListAt(Purge(s, {key}, now), key)|)
  }

  /** The same, seen in a live view. */
  function Sighted(v: View, key: string): Sight {
    if key !in v then SeenLength(0)
    else match v[key].value
      case Str(x) => SeenText(x)
      case Lst(xs) => SeenLength(|xs|)
  }

  lemma {:induction false} LookFromView(s: Store, key: string, now: int)
    requires Consistent(s)
    ensures Look(s, key, now) == Sighted(Live(s, now), key)
  {
    Expiry.PurgedListAt(s, key, now);
    Expiry.LiveLookup(s, key, now);
  }

  function Record(key: string, sight: Sight): Snapshot {
    match sight
    case SeenText(x) => Snapshot(key, true, Some(x), -1)
    case SeenLength(n) => Snapshot(key, true, None, n)
  }

  /** What some WATCH may have recorded. */
  predicate Recorded(snap: Snapshot) {
    snap.existed && if snap.text.Some? then snap.listSize == -1 else snap.listSize >= 0
  }

  predicate AsRecorded(s: Store, snap: Snapshot, now: int) {
    snap == Record(snap.key, Look(s, snap.key, now))
  }

  /** What the check makes of any snapshot at all. */
  predicate Differs(s: Store, snap: Snapshot, now: int) {
    var sight := Look(s, snap.key, now);
    if !snap.existed then true
    else if snap.text.Some? then sight != SeenText(snap.text.value)
    else if snap.listSize >= 0 then sight != SeenLength(snap.listSize)
    else false
  }

  /** The check and the record agree; a snapshot of a missing key as such is never taken. */
  lemma {:induction false} DiffersExactly(s: Store, snap: Snapshot, now: int)
    requires Recorded(snap)
    ensures Differs(s, snap, now) <==> !AsRecorded(s, snap, now)
  {
    var sight := Look(s, snap.key, now);
    if snap.text.Some? {
      assert sight == SeenText(snap.text.value) <==> Record(snap.key, sight) == snap;
    } else {
      assert sight == SeenLength(snap.listSize) <==> Record(snap.key, sight) == snap;
    }
  }

  predicate AllAsRecorded(s: Store, snaps: seq<Snapshot>, now: int) {
    forall i :: 0 <= i < |snaps| ==> AsRecorded(s, snaps[i], now)
  }

  /** The keys read before the first difference is found. */
  function Checked(s: Store, snaps: seq<Snapshot>, now: int): set<string> {
    if snaps == [] then {}
    else {snaps[0].key} + (if AsRecorded(s, snaps[0], now) then Checked(s, snaps[1..], now) else {})
  }

  function Records(s: Store, keys: seq<string>, now: int): (r: seq<Snapshot>)
    ensures |r| == |keys|
  {
    if keys == [] then [] else [Record(keys[0], Look(s, keys[0], now))] + Records(s, keys[1..], now)
  }

  // ---------------------------------------------------------------------
  // Steps
  // ---------------------------------------------------------------------

  datatype Session = Session(inMulti: bool, queue: seq<Command>, watched: seq<string>, snapshots: seq<Snapshot>)

  const IDLE := Session(false, [], [], [])

  function Refusal(name: string): string {
    "ERR Can't execute '" + name + "': only (P)SUBSCRIBE / (P)UNSUBSCRIBE / PING / QUIT are allowed in this context"
  }

  const NESTED := "ERR MULTI calls can not be nested"
  const NO_MULTI_TO_EXEC := "ERR EXEC without MULTI"
  const NO_MULTI_TO_DISCARD := "ERR DISCARD without MULTI"
  const WATCH_IN_MULTI := "ERR WATCH inside MULTI is not allowed"

  /** `worlds` is what a run of commands goes through, one after another. */
  ghost predicate Chain(worlds: seq<World>, client: PubSub.Client, commands: seq<Command>, now: int,
                        replies: seq<string>)
  {
    && |worlds| == |commands| + 1 && |replies| == |commands|
    && forall i :: 0 <= i < |commands| ==> Link(worlds, client, commands, now, replies, i)
  }

  ghost predicate Link(worlds: seq<World>, client: PubSub.Client, commands: seq<Command>, now: int,
                       replies: seq<string>, i: nat)
    requires |worlds| == |commands| + 1 && |replies| == |commands| && i < |commands|
  {
    Performs(worlds[i], client, commands[i], now, worlds[i + 1], replies[i])
  }

  lemma {:induction false} ChainMore(worlds: seq<World>, client: PubSub.Client, commands: seq<Command>, now: int,
                                     replies: seq<string>,
                  c: Command, w: World, reply: string)
    requires Chain(worlds, client, commands, now, replies) && Performs(worlds[|commands|], client, c, now, w, reply)
    ensures Chain(worlds + [w], client, commands + [c], now, replies + [reply])
  {
    var ws, cs, rs := worlds + [w], commands + [c], replies + [reply];
    forall i | 0 <= i < |cs| ensures Link(ws, client, cs, now, rs, i) {
      assert i < |commands| ==> Link(worlds, client, commands, now, replies, i);
    }
  }

  lemma {:induction false} ChainFront(worlds: seq<World>, client: PubSub.Client, commands: seq<Command>, now: int,
                                      replies: seq<string>)
    requires Chain(worlds, client, commands, now, replies) && commands != []
    ensures
      var n := |commands| - 1;
      && Chain(worlds[..n + 1], client, commands[..n], now, replies[..n])
      && Performs(worlds[n], client, commands[n], now, worlds[n + 1], replies[n])
  {
    var n := |commands| - 1;
    var ws, cs, rs := worlds[..n + 1], commands[..n], replies[..n];
    assert Link(worlds, client, commands, now, replies, n);
    forall i | 0 <= i < n ensures Link(ws, client, cs, now, rs, i) {
      assert Link(worlds, client, commands, now, replies, i);
    }
  }

  function ExecReply(replies: seq<string>): string {
    if replies == [] then "(empty list)" else Numbered(replies, 1)
  }

  ghost predicate RunsQueue(w: World, client: PubSub.Client, queue: seq<Command>, now: int, w': World, reply: string) {
    exists worlds, replies :: Chain(worlds, client, queue, now, replies)
      && worlds[0] == w && worlds[|queue|] == w' && reply == ExecReply(replies)
  }

  /** The watch check removes the expired keys it meets. */
  function AfterCheck(w: World, h: Session, now: int): World {
    w.(store := Purge(w.store, Checked(w.store, h.snapshots, now), now))
  }

  ghost predicate Execs(h: Session, w: World, client: PubSub.Client, now: int, h': Session, w': World, reply: string) {
    if !h.inMulti then h' == h && w' == w && reply == NO_MULTI_TO_EXEC
    else
      && h' == IDLE
      && if AllAsRecorded(w.store, h.snapshots, now)
         then RunsQueue(AfterCheck(w, h, now), client, h.queue, now, w', reply)
         else w' == AfterCheck(w, h, now) && reply == "(nil)"
  }

  ghost predicate Watches(h: Session, w: World, c: Command, now: int, h': Session, w': World, reply: string) {
    if c.args == [] then h' == h && w' == w && reply == WrongArguments("WATCH")
    else if h.inMulti then h' == h && w' == w && reply == WATCH_IN_MULTI
    else
      && h' == h.(watched := h.watched + c.args, snapshots := h.snapshots + Records(w.store, c.args, now))
      && w' == w.(store := Purge(w.store, Elements(c.args), now))
      && reply == "OK"
  }

  /** The steering commands. */
  ghost predicate Directs(h: Session, w: World, client: PubSub.Client, c: Command, now: int,
                          h': Session, w': World, reply: string)
  {
    match VerbOf(c.name)
    case MULTI =>
      && w' == w
      && if h.inMulti then h' == h && reply == NESTED
         else h' == h.(inMulti := true, queue := []) && reply == "OK"
    case EXEC => Execs(h, w, client, now, h', w', reply)
    case DISCARD =>
      && w' == w
      && if !h.inMulti then h' == h && reply == NO_MULTI_TO_DISCARD
         else h' == h.(inMulti := false, queue := []) && reply == "OK"
    case WATCH => Watches(h, w, c, now, h', w', reply)
    case _ => false
  }

  /** One command of a client, from the session and world before it to those after it. */
  ghost predicate Executes(h: Session, w: World, client: PubSub.Client, c: Command, now: int,
                           h': Session, w': World, reply: string)
  {
    if Subscribed(w.subs, client) && !WhileSubscribed(c) then h' == h && w' == w && reply == Refusal(c.name)
    else if Steers(c) then Directs(h, w, client, c, now, h', w', reply)
    else if h.inMulti then h' == h.(queue := h.queue + [c]) && w' == w && reply == "QUEUED"
    else h' == h && Performs(w, client, c, now, w', reply)
  }

  // ---------------------------------------------------------------------
  // What EXEC decides
  // ---------------------------------------------------------------------

  lemma {:induction false} RunReply(replies: seq<string>)
    ensures ExecReply(replies) != "(nil)"
  {
    if replies != [] {
      ListReply.LooksLikeList(replies);
    } else {
      assert "(empty list)"[1] != "(nil)"[1];
    }
  }

  lemma {:induction false} ExecDecides(h: Session, w: World, client: PubSub.Client, now: int, h': Session, w': World,
                                       reply: string)
    requires h.inMulti && Execs(h, w, client, now, h', w', reply)
    ensures reply != "(nil)" <==> AllAsRecorded(w.store, h.snapshots, now)
    ensures reply != "(nil)" ==> RunsQueue(AfterCheck(w, h, now), client, h.queue, now, w', reply)
    ensures reply == "(nil)" ==> w' == AfterCheck(w, h, now)
  {
    if AllAsRecorded(w.store, h.snapshots, now) {
      var start := AfterCheck(w, h, now);
      var worlds, replies :| Chain(worlds, client, h.queue, now, replies)
        && worlds[0] == start && worlds[|h.queue|] == w' && reply == ExecReply(replies);
      RunReply(replies);
    }
  }

  /** The world after the watch check looks the same, then and later. */
  lemma {:induction false} CheckInvisible(w: World, h: Session, now: int, later: int)
    requires Consistent(w.store) && now <= later
    ensures AfterCheck(w, h, now).subs == w.subs
    ensures Live(AfterCheck(w, h, now).store, later) == Live(w.store, later)
  {
    Expiry.PurgeInvisible(w.store, Checked(w.store, h.snapshots, now), now, later);
  }

  // ---------------------------------------------------------------------
  // What every step keeps
  // ---------------------------------------------------------------------

  /** Watched keys and snapshots agree, and every snapshot is one that WATCH records. */
  ghost predicate Agree(h: Session) {
    |h.watched| == |h.snapshots| &&
    forall i :: 0 <= i < |h.watched| ==> h.snapshots[i].key == h.watched[i] && Recorded(h.snapshots[i])
  }

  ghost predicate WellFormed(h: Session) {
    && (h.inMulti || h.queue == [])
    && (forall i :: 0 <= i < |h.queue| ==> !Steers(h.queue[i]))
    && Agree(h)
  }

  ghost predicate Sound(h: Session, w: World, client: PubSub.Client) {
    WellFormed(h) && !(h.inMulti && Subscribed(w.subs, client)) && ListLaws.Invariant(w.store)
  }

  lemma {:induction false} RecordsAt(s: Store, keys: seq<string>, now: int, i: nat)
    requires i < |keys|
    ensures Records(s, keys, now)[i] == Record(keys[i], Look(s, keys[i], now))
    decreases |keys|
  {
    if i == 0 {
    } else {
      RecordsAt(s, keys[1..], now, i - 1);
    }
  }

  lemma {:induction false} WatchKeeps(h: Session, s: Store, keys: seq<string>, now: int)
    requires Agree(h)
    ensures Agree(h.(watched := h.watched + keys, snapshots := h.snapshots + Records(s, keys, now)))
  {
    forall i | 0 <= i < |keys|
      ensures Records(s, keys, now)[i].key == keys[i] && Recorded(Records(s, keys, now)[i])
    {
      RecordsAt(s, keys, now, i);
    }
  }

  lemma {:induction false} PurgeKeeps(s: Store, keys: set<string>, now: int)
    requires ListLaws.Invariant(s)
    ensures ListLaws.Invariant(Purge(s, keys, now))
  {
    Expiry.PurgeInvisible(s, keys, now, now);
    Expiry.PurgeKeepsLists(s, keys, now);
  }

  lemma {:induction false} ChainKeeps(worlds: seq<World>, client: PubSub.Client, commands: seq<Command>, now: int,
                                      replies: seq<string>, n: nat)
    requires Chain(worlds, client, commands, now, replies) && n <= |commands| && ListLaws.Invariant(worlds[0].store)
    ensures ListLaws.Invariant(worlds[n].store)
    decreases n
  {
    if n == 0 {
    } else {
      ChainKeeps(worlds, client, commands, now, replies, n - 1);
      assert Link(worlds, client, commands, now, replies, n - 1);
      PerformsKeepsStore(worlds[n - 1], client, commands[n - 1], now, worlds[n], replies[n - 1]);
    }
  }

  lemma {:induction false} ExecKeepsStore(h: Session, w: World, client: PubSub.Client, now: int,
                                          h': Session, w': World, reply: string)
    requires ListLaws.Invariant(w.store) && Execs(h, w, client, now, h', w', reply)
    ensures ListLaws.Invariant(w'.store)
  {
    if h.inMulti {
      PurgeKeeps(w.store, Checked(w.store, h.snapshots, now), now);
      if AllAsRecorded(w.store, h.snapshots, now) {
        var start := AfterCheck(w, h, now);
        var worlds, replies :| Chain(worlds, client, h.queue, now, replies)
          && worlds[0] == start && worlds[|h.queue|] == w' && reply == ExecReply(replies);
        ChainKeeps(worlds, client, h.queue, now, replies, |h.queue|);
      }
    }
  }

  lemma {:induction false} SteeringKeepsForm(h: Session, w: World, client: PubSub.Client, c: Command, now: int,
                                             h': Session, w': World, reply: string)
    requires WellFormed(h) && Directs(h, w, client, c, now, h', w', reply)
    ensures WellFormed(h')
  {
    if VerbOf(c.name) == WATCH {
      WatchKeeps(h, w.store, c.args, now);
    }
  }

  /** Every step leaves the queue and the watches in order. */
  lemma {:induction false} StepKeepsForm(h: Session, w: World, client: PubSub.Client, c: Command, now: int,
                                         h': Session, w': World, reply: string)
    requires WellFormed(h) && Executes(h, w, client, c, now, h', w', reply)
    ensures WellFormed(h')
  {
    if Steers(c) && !(Subscribed(w.subs, client) && !WhileSubscribed(c)) {
      SteeringKeepsForm(h, w, client, c, now, h', w', reply);
    }
  }

  lemma {:induction false} SteeringKeepsStore(h: Session, w: World, client: PubSub.Client, c: Command, now: int,
                                              h': Session, w': World, reply: string)
    requires ListLaws.Invariant(w.store) && Directs(h, w, client, c, now, h', w', reply)
    ensures ListLaws.Invariant(w'.store)
  {
    match VerbOf(c.name)
    case EXEC => ExecKeepsStore(h, w, client, now, h', w', reply);
    case WATCH => PurgeKeeps(w.store, Elements(c.args), now);
    case _ =>
  }

  /** No step of any client breaks the store. */
  lemma {:induction false} StepKeepsStore(h: Session, w: World, client: PubSub.Client, c: Command, now: int,
                                          h': Session, w': World, reply: string)
    requires ListLaws.Invariant(w.store) && Executes(h, w, client, c, now, h', w', reply)
    ensures ListLaws.Invariant(w'.store)
  {
    if !(Subscribed(w.subs, client) && !WhileSubscribed(c)) {
      if Steers(c) {
        SteeringKeepsStore(h, w, client, c, now, h', w', reply);
      } else if !h.inMulti {
        PerformsKeepsStore(w, client, c, now, w', reply);
      }
    }
  }

  lemma {:induction false} StepKeepsMode(h: Session, w: World, client: PubSub.Client, c: Command, now: int,
                                         h': Session, w': World, reply: string)
    requires !(h.inMulti && Subscribed(w.subs, client)) && Executes(h, w, client, c, now, h', w', reply)
    ensures !(h'.inMulti && Subscribed(w'.subs, client))
  {
  }

  /** Every step of a session keeps it sound. */
  lemma {:induction false} StepKeeps(h: Session, w: World, client: PubSub.Client, c: Command, now: int,
                                     h': Session, w': World, reply: string)
    requires Sound(h, w, client) && Executes(h, w, client, c, now, h', w', reply)
    ensures Sound(h', w', client)
  {
    StepKeepsForm(h, w, client, c, now, h', w', reply);
    StepKeepsStore(h, w, client, c, now, h', w', reply);
    StepKeepsMode(h, w, client, c, now, h', w', reply);
  }
}
