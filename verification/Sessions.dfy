/** Whole runs of one handler, with other clients at work between its steps. */
module Sessions {
  import opened Base
  import opened Store
  import opened Parser
  import opened Commands
  import opened Transactions
  import Expiry
  import Handler
  import ListLaws
  import PubSub

  datatype Step = Mine(command: Command, now: int, reply: string) | Others

  datatype Moment = Moment(h: Session, w: World)

  /** What the rest of the system may do: anything but break the store or subscribe this client. */
  ghost predicate Interferes(w: World, client: PubSub.Client, w': World) {
    && (ListLaws.Invariant(w.store) ==> ListLaws.Invariant(w'.store))
    && forall p :: p in w'.subs && p.0 == client ==> p in w.subs
  }

  ghost predicate Takes(client: PubSub.Client, before: Moment, step: Step, after: Moment) {
    match step
    case Mine(c, now, reply) => Executes(before.h, before.w, client, c, now, after.h, after.w, reply)
    case Others => after.h == before.h && Interferes(before.w, client, after.w)
  }

  ghost predicate IsRun(client: PubSub.Client, moments: seq<Moment>, steps: seq<Step>) {
    |moments| == |steps| + 1 && forall i :: 0 <= i < |steps| ==> TakesAt(client, moments, steps, i)
  }

  ghost predicate TakesAt(client: PubSub.Client, moments: seq<Moment>, steps: seq<Step>, i: nat)
    requires |moments| == |steps| + 1 && i < |steps|
  {
    Takes(client, moments[i], steps[i], moments[i + 1])
  }

  method ServeOne(handler: Handler.CommandHandler, cmd: Command, now: int, chance: nat -> Handler.Chance)
    returns (reply: string, ghost step: Step, ghost after: Moment)
    requires handler.Valid()
    modifies handler, handler.db, handler.pubsub
    ensures handler.Valid() && after == Moment(handler.State(), handler.Around())
    ensures step == Mine(cmd, now, reply)
    ensures Takes(handler.client, old(Moment(handler.State(), handler.Around())), step, after)
  {
    reply := handler.Execute(cmd, now, chance);
    step, after := Mine(cmd, now, reply), Moment(handler.State(), handler.Around());
  }

  /** Each step is the client's own, with its command, its time and its reply. */
  ghost predicate AsAsked(requests: seq<(Command, int)>, replies: seq<string>, steps: seq<Step>) {
    && |steps| == |replies| == |requests|
    && forall i :: 0 <= i < |steps| ==> steps[i] == Mine(requests[i].0, requests[i].1, replies[i])
  }

  lemma {:induction false} AskedMore(requests: seq<(Command, int)>, replies: seq<string>, steps: seq<Step>, n: nat,
                                     reply: string, step: Step)
    requires n < |requests| && AsAsked(requests[..n], replies, steps) &&
      step == Mine(requests[n].0, requests[n].1, reply)
    ensures AsAsked(requests[..n + 1], replies + [reply], steps + [step])
  {
  }

  /** The handler object, given one command after another, goes through a run. */
  method Serve(handler: Handler.CommandHandler, requests: seq<(Command, int)>, chance: nat -> nat -> Handler.Chance)
    returns (replies: seq<string>, ghost moments: seq<Moment>, ghost steps: seq<Step>)
    requires handler.Valid()
    modifies handler, handler.db, handler.pubsub
    ensures handler.Valid() && IsRun(handler.client, moments, steps) && |steps| == |replies| == |requests|
    ensures moments[0] == old(Moment(handler.State(), handler.Around()))
    ensures moments[|steps|] == Moment(handler.State(), handler.Around())
    ensures AsAsked(requests, replies, steps)
  {
    replies, moments, steps := [], [Moment(handler.State(), handler.Around())], [];
    for i := 0 to |requests|
      invariant handler.Valid() && IsRun(handler.client, moments, steps) && |steps| == |replies| == i
      invariant moments[0] == old(Moment(handler.State(), handler.Around()))
      invariant moments[i] == Moment(handler.State(), handler.Around())
      invariant AsAsked(requests[..i], replies, steps)
    {
      var reply;
      ghost var step, after;
      reply, step, after := ServeOne(handler, requests[i].0, requests[i].1, chance(i));
      RunMore(handler.client, moments, steps, step, after);
      AskedMore(requests, replies, steps, i, reply, step);
      replies, moments, steps := replies + [reply], moments + [after], steps + [step];
    }
  }

  lemma {:induction false} RunMore(client: PubSub.Client, moments: seq<Moment>, steps: seq<Step>, step: Step,
                                   after: Moment)
    requires IsRun(client, moments, steps) && Takes(client, moments[|steps|], step, after)
    ensures IsRun(client, moments + [after], steps + [step])
  {
    var ms, ss := moments + [after], steps + [step];
    forall i | 0 <= i < |ss| ensures TakesAt(client, ms, ss, i) {
      if i < |steps| {
        assert TakesAt(client, moments, steps, i);
        SameTakes(client, moments[i], steps[i], moments[i + 1], ms, ss, i);
      } else {
        SameTakes(client, moments[i], step, after, ms, ss, i);
      }
    }
  }

  lemma {:induction false} SameTakes(client: PubSub.Client, before: Moment, step: Step, after: Moment,
                                     moments: seq<Moment>, steps: seq<Step>, i: nat)
    requires Takes(client, before, step, after) && |moments| == |steps| + 1 && i < |steps|
    requires moments[i] == before && steps[i] == step && moments[i + 1] == after
    ensures TakesAt(client, moments, steps, i)
  {
  }

  /** In every reachable state the queue is empty outside MULTI and holds no
      steering command, watched keys and snapshots agree, and the client is not
      in MULTI while it is subscribed. */
  lemma {:induction false} RunStaysSound(client: PubSub.Client, moments: seq<Moment>, steps: seq<Step>, n: nat)
    requires IsRun(client, moments, steps) && n <= |steps| && Sound(moments[0].h, moments[0].w, client)
    ensures Sound(moments[n].h, moments[n].w, client)
    decreases n
  {
    if n == 0 {
    } else {
      RunStaysSound(client, moments, steps, n - 1);
      StaysSoundAt(client, moments, steps, n - 1);
    }
  }

  lemma {:induction false} StaysSoundAt(client: PubSub.Client, moments: seq<Moment>, steps: seq<Step>, i: nat)
    requires IsRun(client, moments, steps) && i < |steps| && Sound(moments[i].h, moments[i].w, client)
    ensures Sound(moments[i + 1].h, moments[i + 1].w, client)
  {
    var before, after := moments[i], moments[i + 1];
    assert TakesAt(client, moments, steps, i);
    match steps[i]
    case Mine(c, now, reply) => StepKeeps(before.h, before.w, client, c, now, after.h, after.w, reply);
    case Others =>
  }

  // ---------------------------------------------------------------------
  // What the rest of the system does
  // ---------------------------------------------------------------------

  /** No subscription of `client` is new. */
  ghost predicate NoneFor(client: PubSub.Client, before: PubSub.Subscriptions, after: PubSub.Subscriptions) {
    forall p :: p in after && p.0 == client ==> p in before
  }

  lemma {:induction false} PerformsForItself(w: World, other: PubSub.Client, c: Command, now: int, w': World,
                                             reply: string, client: PubSub.Client)
    requires Performs(w, other, c, now, w', reply) && other != client
    ensures NoneFor(client, w.subs, w'.subs)
  {
    if VerbOf(c.name) == SUBSCRIBE && c.args != [] {
      PubSub.JoinedAre(w.subs, other, c.args);
    } else if VerbOf(c.name) != SUBSCRIBE {
      PerformsAddsNone(w, other, c, now, w', reply);
    }
  }

  lemma {:induction false} ChainForItself(worlds: seq<World>, other: PubSub.Client, commands: seq<Command>, now: int,
                                          replies: seq<string>, client: PubSub.Client, n: nat)
    requires Chain(worlds, other, commands, now, replies) && other != client && n <= |commands|
    ensures NoneFor(client, worlds[0].subs, worlds[n].subs)
    decreases n
  {
    if n == 0 {
    } else {
      ChainForItself(worlds, other, commands, now, replies, client, n - 1);
      assert Link(worlds, other, commands, now, replies, n - 1);
      PerformsForItself(worlds[n - 1], other, commands[n - 1], now, worlds[n], replies[n - 1], client);
    }
  }

  lemma {:induction false} ExecForItself(h: Session, w: World, other: PubSub.Client, now: int, h': Session, w': World,
                                         reply: string, client: PubSub.Client)
    requires Execs(h, w, other, now, h', w', reply) && other != client
    ensures NoneFor(client, w.subs, w'.subs)
  {
    if h.inMulti && AllAsRecorded(w.store, h.snapshots, now) {
      var start := AfterCheck(w, h, now);
      var worlds, replies :| Chain(worlds, other, h.queue, now, replies)
        && worlds[0] == start && worlds[|h.queue|] == w' && reply == ExecReply(replies);
      ChainForItself(worlds, other, h.queue, now, replies, client, |h.queue|);
    }
  }

  lemma {:induction false} StepForItself(h: Session, w: World, other: PubSub.Client, c: Command, now: int, h': Session,
                                         w': World, reply: string, client: PubSub.Client)
    requires Executes(h, w, other, c, now, h', w', reply) && other != client
    ensures NoneFor(client, w.subs, w'.subs)
  {
    if !(Subscribed(w.subs, other) && !WhileSubscribed(c)) {
      if VerbOf(c.name) == EXEC {
        ExecForItself(h, w, other, now, h', w', reply, client);
      } else if !Steers(c) && !h.inMulti {
        PerformsForItself(w, other, c, now, w', reply, client);
      }
    }
  }

  /** Any step of another client, whatever its session, is what a run allows for. */
  lemma {:induction false} OthersInterfere(h: Session, w: World, other: PubSub.Client, c: Command, now: int,
                                           h': Session,
                                           w': World, reply: string, client: PubSub.Client)
    requires Executes(h, w, other, c, now, h', w', reply) && other != client
    ensures Interferes(w, client, w')
  {
    StepForItself(h, w, other, c, now, h', w', reply, client);
    if ListLaws.Invariant(w.store) { StepKeepsStore(h, w, other, c, now, h', w', reply); }
  }

  /** So is the background sweep. */
  lemma {:induction false} SweepInterferes(w: World, sample: set<string>, at: int, client: PubSub.Client)
    ensures Interferes(w, client, World(Purge(w.store, sample, at), w.subs))
  {
    if ListLaws.Invariant(w.store) { PurgeKeeps(w.store, sample, at); }
  }

  /** A client that is gone has no subscriptions. */
  ghost function Dropped(w: World, client: PubSub.Client): World {
    w.(subs := set p | p in w.subs && p.0 != client)
  }

  /** And so is a client that disconnects. */
  lemma {:induction false} DropInterferes(w: World, other: PubSub.Client, client: PubSub.Client)
    ensures Interferes(w, client, Dropped(w, other))
  {
  }

  // ---------------------------------------------------------------------
  // WATCH
  // ---------------------------------------------------------------------

  datatype Sighting = Sighting(key: string, sight: Sight)

  function Sightings(s: Store, keys: seq<string>, now: int): (r: seq<Sighting>)
    ensures |r| == |keys|
  {
    if keys == [] then [] else [Sighting(keys[0], Look(s, keys[0], now))] + Sightings(s, keys[1..], now)
  }

  ghost predicate Refused(m: Moment, client: PubSub.Client, c: Command) {
    Subscribed(m.w.subs, client) && !WhileSubscribed(c)
  }

  /** How one step changes what the session has on watch. */
  ghost function WatchedAfter(client: PubSub.Client, m: Moment, step: Step, earlier: seq<Sighting>): seq<Sighting> {
    match step
    case Others => earlier
    case Mine(c, now, _) =>
      if Refused(m, client, c) then earlier
      else if VerbOf(c.name) == EXEC && m.h.inMulti then []
      else if VerbOf(c.name) == WATCH && !m.h.inMulti then earlier + Sightings(m.w.store, c.args, now)
      else earlier
  }

  /** What the WATCH commands of a run have seen since the last EXEC. */
  ghost function Watched(client: PubSub.Client, moments: seq<Moment>, steps: seq<Step>, n: nat): seq<Sighting>
    requires n <= |steps| && |moments| == |steps| + 1
  {
    if n == 0 then [] else WatchedAfter(client, moments[n - 1], steps[n - 1], Watched(client, moments, steps, n - 1))
  }

  function RecordAll(seen: seq<Sighting>): (r: seq<Snapshot>)
    ensures |r| == |seen| && forall i :: 0 <= i < |r| ==> r[i] == Record(seen[i].key, seen[i].sight)
  {
    seq(|seen|, i requires 0 <= i < |seen| => Record(seen[i].key, seen[i].sight))
  }

  lemma {:induction false} SightingsAt(s: Store, keys: seq<string>, now: int, i: nat)
    requires i < |keys|
    ensures Sightings(s, keys, now)[i] == Sighting(keys[i], Look(s, keys[i], now))
    decreases |keys|
  {
    if i == 0 {
    } else {
      SightingsAt(s, keys[1..], now, i - 1);
    }
  }

  lemma {:induction false} RecordedSightings(s: Store, keys: seq<string>, now: int)
    ensures RecordAll(Sightings(s, keys, now)) == Records(s, keys, now)
  {
    var seen, records := RecordAll(Sightings(s, keys, now)), Records(s, keys, now);
    forall i | 0 <= i < |keys| ensures seen[i] == records[i] {
      SightingsAt(s, keys, now, i);
      RecordsAt(s, keys, now, i);
    }
  }

  lemma {:induction false} RecordMore(a: seq<Sighting>, s: Store, keys: seq<string>, now: int)
    ensures RecordAll(a + Sightings(s, keys, now)) == RecordAll(a) + Records(s, keys, now)
  {
    RecordedSightings(s, keys, now);
    assert RecordAll(a + Sightings(s, keys, now)) == RecordAll(a) + RecordAll(Sightings(s, keys, now));
  }

  lemma {:induction false} SnapshotsStep(client: PubSub.Client, before: Moment, step: Step, after: Moment,
                                         seen: seq<Sighting>)
    requires Takes(client, before, step, after) && before.h.snapshots == RecordAll(seen)
    ensures after.h.snapshots == RecordAll(WatchedAfter(client, before, step, seen))
  {
    if step.Mine? && !Refused(before, client, step.command) {
      if VerbOf(step.command.name) == WATCH && !before.h.inMulti {
        RecordMore(seen, before.w.store, step.command.args, step.now);
        WatchStep(before, step.command, step.now, after, step.reply);
      }
    }
  }

  /** The snapshots of a handler are what its WATCH commands saw. */
  lemma {:induction false} SnapshotsAreSightings(client: PubSub.Client, moments: seq<Moment>, steps: seq<Step>, n: nat)
    requires IsRun(client, moments, steps) && n <= |steps| && moments[0].h == IDLE
    ensures moments[n].h.snapshots == RecordAll(Watched(client, moments, steps, n))
    decreases n
  {
    if n == 0 {
    } else {
      SnapshotsAreSightings(client, moments, steps, n - 1);
      assert TakesAt(client, moments, steps, n - 1);
      SnapshotsStep(client, moments[n - 1], steps[n - 1], moments[n], Watched(client, moments, steps, n - 1));
    }
  }

  lemma {:induction false} WatchStep(before: Moment, c: Command, now: int, after: Moment, reply: string)
    requires !before.h.inMulti && Watches(before.h, before.w, c, now, after.h, after.w, reply)
    ensures after.h.snapshots == before.h.snapshots + Records(before.w.store, c.args, now)
  {
    assert c.args == [] ==> before.h.snapshots + [] == before.h.snapshots;
  }

  ghost predicate Unchanged(s: Store, seen: seq<Sighting>, now: int) {
    forall i :: 0 <= i < |seen| ==> Look(s, seen[i].key, now) == seen[i].sight
  }

  lemma {:induction false} UnchangedIsAsRecorded(s: Store, seen: seq<Sighting>, now: int)
    ensures AllAsRecorded(s, RecordAll(seen), now) <==> Unchanged(s, seen, now)
  {
    forall i | 0 <= i < |seen|
      ensures AsRecorded(s, RecordAll(seen)[i], now) <==> Look(s, seen[i].key, now) == seen[i].sight
    {
      assert Record(seen[i].key, Look(s, seen[i].key, now)) == Record(seen[i].key, seen[i].sight)
        <==> Look(s, seen[i].key, now) == seen[i].sight;
    }
  }

  /**
   EXEC runs the queue exactly when every key looks as it did to the WATCH that
   recorded it; otherwise nothing visible changes.  Either way the session is idle.
   */
  lemma {:induction false} WatchExactly(client: PubSub.Client, moments: seq<Moment>, steps: seq<Step>, n: nat)
    requires IsRun(client, moments, steps) && n < |steps|
    requires moments[0].h == IDLE && ListLaws.Invariant(moments[0].w.store)
    requires steps[n].Mine? && VerbOf(steps[n].command.name) == EXEC && moments[n].h.inMulti
    ensures
      var before, after, now, reply := moments[n], moments[n + 1], steps[n].now, steps[n].reply;
      && after.h == IDLE
      && (reply != "(nil)" <==> Unchanged(before.w.store, Watched(client, moments, steps, n), now))
      && (reply != "(nil)" ==>
        RunsQueue(AfterCheck(before.w, before.h, now), client, before.h.queue, now, after.w, reply))
      && (reply == "(nil)" ==>
            after.w.subs == before.w.subs
            && forall later :: now <= later ==> Live(after.w.store, later) == Live(before.w.store, later))
  {
    var before, after, now, reply := moments[n], moments[n + 1], steps[n].now, steps[n].reply;
    RunStaysSound(client, moments, steps, n);
    SnapshotsAreSightings(client, moments, steps, n);
    UnchangedIsAsRecorded(before.w.store, Watched(client, moments, steps, n), now);
    assert TakesAt(client, moments, steps, n);
    assert Execs(before.h, before.w, client, now, after.h, after.w, reply);
    ExecDecides(before.h, before.w, client, now, after.h, after.w, reply);
    forall later | now <= later
      ensures Live(AfterCheck(before.w, before.h, now).store, later) == Live(before.w.store, later)
    {
      CheckInvisible(before.w, before.h, now, later);
    }
  }

  // ---------------------------------------------------------------------
  // What WATCH can tell apart
  // ---------------------------------------------------------------------

  /** The value a client finds under a key. */
  function ValueAt(s: Store, key: string, now: int): Option<Value> {
    if key in Live(s, now) then Some(Live(s, now)[key].value) else None
  }

  lemma {:induction false} LookIsLive(s: Store, key: string, now: int)
    requires ListLaws.Invariant(s)
    ensures Look(s, key, now) ==
      match ValueAt(s, key, now)
      case None => SeenLength(0)
      case Some(Str(x)) => SeenText(x)
      case Some(Lst(xs)) => SeenLength(|xs|)
    ensures forall xs :: ValueAt(s, key, now) == Some(Lst(xs)) ==> xs != []
  {
    LookFromView(s, key, now);
    Expiry.LiveLookup(s, key, now);
  }

  /** A missing key looks like nothing else, although it is recorded as a list of length 0. */
  lemma {:induction false} MissingSeenExactly(s: Store, key: string, now: int)
    requires ListLaws.Invariant(s)
    ensures Look(s, key, now) == SeenLength(0) <==> key !in Live(s, now)
  {
    LookIsLive(s, key, now);
  }

  /** Two observations of a key agree exactly when the values are equal or are lists of one
      length; a change back, or of the deadline alone, is not seen either. */
  lemma {:induction false} ChangeSeenExactly(s: Store, now: int, s': Store, now': int, key: string)
    requires ListLaws.Invariant(s) && ListLaws.Invariant(s')
    ensures Look(s, key, now) == Look(s', key, now') <==>
      var a, b := ValueAt(s, key, now), ValueAt(s', key, now');
      a == b || (a.Some? && b.Some? && a.value.Lst? && b.value.Lst? && |a.value.items| == |b.value.items|)
  {
    LookIsLive(s, key, now);
    LookIsLive(s', key, now');
  }

  // ---------------------------------------------------------------------
  // Queues
  // ---------------------------------------------------------------------

  ghost predicate Queues(step: Step) {
    step.Mine? ==> !Steers(step.command)
  }

  function Collected(steps: seq<Step>): seq<Command> {
    if steps == [] then []
    else Collected(steps[..|steps| - 1]) +
         (if steps[|steps| - 1].Mine? then [steps[|steps| - 1].command] else [])
  }

  /** Inside MULTI the client's commands are collected in order and change nothing. */
  lemma {:induction false} QueueCollects(client: PubSub.Client, moments: seq<Moment>, steps: seq<Step>, n: nat)
    requires IsRun(client, moments, steps) && n <= |steps| && Sound(moments[0].h, moments[0].w, client)
    requires moments[0].h.inMulti && forall i :: 0 <= i < n ==> Queues(steps[i])
    ensures moments[n].h == moments[0].h.(queue := moments[0].h.queue + Collected(steps[..n]))
    ensures n > 0 && steps[n - 1].Mine? ==> moments[n].w == moments[n - 1].w && steps[n - 1].reply == "QUEUED"
    decreases n
  {
    if n == 0 {
      assert moments[0].h.queue + [] == moments[0].h.queue;
    } else {
      QueueCollects(client, moments, steps, n - 1);
      RunStaysSound(client, moments, steps, n - 1);
      assert steps[..n][..n - 1] == steps[..n - 1];
      assert TakesAt(client, moments, steps, n - 1) && Queues(steps[n - 1]);
      var q, more := moments[0].h.queue, Collected(steps[..n - 1]);
      assert steps[n - 1].Mine? ==> q + more + [steps[n - 1].command] == q + (more + [steps[n - 1].command]);
      assert q + (more + []) == q + more;
    }
  }

  /** MULTI, any commands, DISCARD: nothing has happened but what others did. */
  lemma {:induction false} DiscardForgets(client: PubSub.Client, moments: seq<Moment>, steps: seq<Step>, n: nat)
    requires IsRun(client, moments, steps) && 0 < n && n + 1 == |steps| && Sound(moments[0].h, moments[0].w, client)
    requires !moments[0].h.inMulti && !Subscribed(moments[0].w.subs, client)
    requires steps[0].Mine? && VerbOf(steps[0].command.name) == MULTI
    requires forall i :: 0 < i < n ==> Queues(steps[i])
    requires steps[n].Mine? && VerbOf(steps[n].command.name) == DISCARD
    ensures moments[n + 1].h == moments[0].h
    ensures forall i :: 0 <= i <= n && steps[i].Mine? ==> moments[i + 1].w == moments[i].w
  {
    var ms, ss := moments[1..], steps[1..];
    RunTail(client, moments, steps);
    Opens(client, moments, steps);
    RunStaysSound(client, moments, steps, 1);
    RunStaysSound(client, moments, steps, n);
    forall i | 0 < i < n && steps[i].Mine? ensures moments[i + 1].w == moments[i].w {
      QueueCollects(client, ms, ss, i);
    }
    QueueCollects(client, ms, ss, n - 1);
    Closes(client, moments, steps, n);
  }

  lemma {:induction false} RunTail(client: PubSub.Client, moments: seq<Moment>, steps: seq<Step>)
    requires IsRun(client, moments, steps) && steps != []
    ensures IsRun(client, moments[1..], steps[1..])
  {
    var ms, ss := moments[1..], steps[1..];
    forall i | 0 <= i < |ss| ensures TakesAt(client, ms, ss, i) {
      assert TakesAt(client, moments, steps, i + 1);
    }
  }

  lemma {:induction false} Opens(client: PubSub.Client, moments: seq<Moment>, steps: seq<Step>)
    requires IsRun(client, moments, steps) && steps != [] && steps[0].Mine? && VerbOf(steps[0].command.name) == MULTI
    requires !moments[0].h.inMulti && !Subscribed(moments[0].w.subs, client)
    ensures moments[1] == moments[0].(h := moments[0].h.(inMulti := true, queue := []))
  {
    assert TakesAt(client, moments, steps, 0);
  }

  lemma {:induction false} Closes(client: PubSub.Client, moments: seq<Moment>, steps: seq<Step>, n: nat)
    requires IsRun(client, moments, steps) && n < |steps|
    requires steps[n].Mine? && VerbOf(steps[n].command.name) == DISCARD
    requires moments[n].h.inMulti && !Subscribed(moments[n].w.subs, client)
    ensures moments[n + 1] == moments[n].(h := moments[n].h.(inMulti := false, queue := []))
  {
    assert TakesAt(client, moments, steps, n);
  }

  // ---------------------------------------------------------------------
  // A change that is not seen
  // ---------------------------------------------------------------------

  /** A store with one list. */
  function ListOf(x: string): Store {
    Store(map[], map["k" := [x]], map[])
  }

  lemma {:induction false} ListLook(x: string)
    ensures ListLaws.Invariant(ListOf(x)) && Look(ListOf(x), "k", 0) == SeenLength(1)
    ensures Purge(ListOf(x), {"k"}, 0) == ListOf(x) && ValueAt(ListOf(x), "k", 0) == Some(Lst([x]))
  {
  }

  /** The four commands of the run. */
  ghost predicate Script(watch: Command, multi: Command, ping: Command, exec: Command) {
    && VerbOf(watch.name) == WATCH && watch.args == ["k"] && VerbOf(multi.name) == MULTI
    && VerbOf(ping.name) == PING && ping.args == [] && VerbOf(exec.name) == EXEC
  }

  lemma {:induction false} ScriptInput()
    ensures Script(Command("WATCH", ["k"]), Command("MULTI", []), Command("PING", []), Command("EXEC", []))
  {
  }

  lemma {:induction false} WatchTaken(client: PubSub.Client, watch: Command, h: Session, w: World)
    requires VerbOf(watch.name) == WATCH && watch.args == ["k"] && w == World(ListOf("a"), {})
    requires h == Session(false, [], ["k"], [Snapshot("k", true, None, 1)])
    ensures Takes(client, Moment(IDLE, w), Mine(watch, 0, "OK"), Moment(h, w))
  {
    ListLook("a");
    assert Records(ListOf("a"), ["k"], 0) == [Snapshot("k", true, None, 1)] by {
      assert ["k"][1..] == [];
    }
    assert Elements(["k"]) == {"k"} by { assert "k" in ["k"]; }
    assert [] + ["k"] == ["k"] && [] + [Snapshot("k", true, None, 1)] == [Snapshot("k", true, None, 1)];
  }

  lemma {:induction false} OthersTaken(client: PubSub.Client, h: Session, w: World, w': World)
    requires w == World(ListOf("a"), {}) && w' == World(ListOf("b"), {})
    ensures Takes(client, Moment(h, w), Others, Moment(h, w'))
  {
    ListLook("b");
  }

  lemma {:induction false} QueueTaken(client: PubSub.Client, multi: Command, ping: Command, h: Session, w: World)
    requires VerbOf(multi.name) == MULTI && VerbOf(ping.name) == PING && !h.inMulti && h.queue == [] && w.subs == {}
    ensures Takes(client, Moment(h, w), Mine(multi, 0, "OK"), Moment(h.(inMulti := true), w))
    ensures Takes(client, Moment(h.(inMulti := true), w), Mine(ping, 0, "QUEUED"),
                  Moment(h.(inMulti := true, queue := [ping]), w))
  {
    assert [] + [ping] == [ping];
  }

  lemma {:induction false} PingRuns(client: PubSub.Client, ping: Command, w: World)
    requires VerbOf(ping.name) == PING && ping.args == []
    ensures RunsQueue(w, client, [ping], 0, w, ExecReply(["PONG"]))
  {
    assert Performs(w, client, ping, 0, w, "PONG");
    assert Link([w, w], client, [ping], 0, ["PONG"], 0);
    assert Chain([w, w], client, [ping], 0, ["PONG"]);
  }

  lemma {:induction false} ExecTaken(client: PubSub.Client, exec: Command, ping: Command, h: Session, w: World)
    requires VerbOf(exec.name) == EXEC && VerbOf(ping.name) == PING && ping.args == [] && w == World(ListOf("b"), {})
    requires h == Session(true, [ping], ["k"], [Snapshot("k", true, None, 1)])
    ensures Takes(client, Moment(h, w), Mine(exec, 0, ExecReply(["PONG"])), Moment(IDLE, w))
  {
    ListLook("b");
    assert AllAsRecorded(w.store, h.snapshots, 0);
    assert Checked(w.store, h.snapshots, 0) == {"k"} by {
      assert h.snapshots[1..] == [];
    }
    assert AfterCheck(w, h, 0) == w;
    PingRuns(client, ping, w);
  }

  /** Another client replaces the watched list ["a"] by ["b"], and EXEC still runs the queue. */
  lemma {:induction false} SameLengthMissed(client: PubSub.Client, watch: Command, multi: Command, ping: Command,
                                            exec: Command)
    returns (moments: seq<Moment>, steps: seq<Step>)
    requires Script(watch, multi, ping, exec)
    ensures IsRun(client, moments, steps) && |steps| == 5
    ensures moments[0].h == IDLE && ListLaws.Invariant(moments[0].w.store)
    ensures steps[0] == Mine(watch, 0, "OK") && steps[4] == Mine(exec, 0, ExecReply(["PONG"]))
    ensures ValueAt(moments[0].w.store, "k", 0) == Some(Lst(["a"])) &&
      ValueAt(moments[4].w.store, "k", 0) == Some(Lst(["b"]))
  {
    var a, b := World(ListOf("a"), {}), World(ListOf("b"), {});
    var h := Session(false, [], ["k"], [Snapshot("k", true, None, 1)]);
    var open := h.(inMulti := true);
    var full := open.(queue := [ping]);
    moments := [Moment(IDLE, a), Moment(h, a), Moment(h, b), Moment(open, b), Moment(full, b), Moment(IDLE, b)];
    steps := [Mine(watch, 0, "OK"), Others, Mine(multi, 0, "OK"), Mine(ping, 0, "QUEUED"),
              Mine(exec, 0, ExecReply(["PONG"]))];
    ListLook("a");
    ListLook("b");
    WatchTaken(client, watch, h, a);
    OthersTaken(client, h, a, b);
    QueueTaken(client, multi, ping, h, b);
    ExecTaken(client, exec, ping, full, b);
    FiveSteps(client, moments, steps);
  }

  lemma {:induction false} FiveSteps(client: PubSub.Client, moments: seq<Moment>, steps: seq<Step>)
    requires |moments| == 6 && |steps| == 5
    requires Takes(client, moments[0], steps[0], moments[1]) && Takes(client, moments[1], steps[1], moments[2])
    requires Takes(client, moments[2], steps[2], moments[3]) && Takes(client, moments[3], steps[3], moments[4])
    requires Takes(client, moments[4], steps[4], moments[5])
    ensures IsRun(client, moments, steps)
  {
    forall i | 0 <= i < 5 ensures TakesAt(client, moments, steps, i) {
      assert i == 0 || i == 1 || i == 2 || i == 3 || i == 4;
    }
  }
}
