/**
 Courses of events: the commands of many clients, each with its session, clients
 that disconnect, and the background sweep, all in one world.
 */
module Courses {
  import opened Base
  import opened Store
  import opened Parser
  import opened Commands
  import opened Simulation
  import opened Transactions
  import opened Execution
  import opened Sessions
  import Expiry
  import PubSub

  // ---------------------------------------------------------------------
  // One step in worlds that look alike
  // ---------------------------------------------------------------------

  lemma {:induction false} LookAlike(s: Store, t: Store, key: string, now: int)
    requires Consistent(s) && Consistent(t) && Live(s, now) == Live(t, now)
    ensures Look(s, key, now) == Look(t, key, now)
  {
    LookFromView(s, key, now);
    LookFromView(t, key, now);
  }

  lemma {:induction false} RecordsAlike(s: Store, t: Store, keys: seq<string>, now: int)
    requires Consistent(s) && Consistent(t) && Live(s, now) == Live(t, now)
    ensures Records(s, keys, now) == Records(t, keys, now)
    decreases |keys|
  {
    if keys == [] {
    } else {
      LookAlike(s, t, keys[0], now);
      RecordsAlike(s, t, keys[1..], now);
    }
  }

  lemma {:induction false} RecordedAlike(s: Store, t: Store, snaps: seq<Snapshot>, now: int)
    requires Consistent(s) && Consistent(t) && Live(s, now) == Live(t, now)
    ensures AllAsRecorded(s, snaps, now) <==> AllAsRecorded(t, snaps, now)
  {
    forall i | 0 <= i < |snaps| ensures AsRecorded(s, snaps[i], now) <==> AsRecorded(t, snaps[i], now) {
      LookAlike(s, t, snaps[i].key, now);
    }
  }

  lemma {:induction false} PurgesAlike(a: World, b: World, keys: set<string>, more: set<string>, now: int)
    requires Alike(a, b, now)
    ensures Alike(a.(store := Purge(a.store, keys, now)), b.(store := Purge(b.store, more, now)), now)
  {
    Expiry.PurgeInvisible(a.store, keys, now, now);
    Expiry.PurgeInvisible(b.store, more, now, now);
  }

  /** The two replies of an EXEC that runs the queue differ in the counts of DEL at most. */
  ghost predicate SameRun(queue: seq<Command>, x: string, y: string) {
    exists xs, ys :: x == ExecReply(xs) && y == ExecReply(ys) && SameButCounts(queue, xs, ys)
  }

  /** How two replies to one command may differ: in the counts of DEL, sent alone or queued. */
  ghost predicate SameReply(h: Session, c: Command, x: string, y: string) {
    x == y || (Counts(c) && !h.inMulti) || (VerbOf(c.name) == EXEC && h.inMulti && SameRun(h.queue, x, y))
  }

  /** Without DEL in the queue there is no difference. */
  lemma {:induction false} SameRunExactly(queue: seq<Command>, x: string, y: string)
    requires SameRun(queue, x, y) && forall i :: 0 <= i < |queue| ==> !Counts(queue[i])
    ensures x == y
  {
    var xs, ys :| x == ExecReply(xs) && y == ExecReply(ys) && SameButCounts(queue, xs, ys);
    assert xs == ys;
  }

  lemma {:induction false} QueueAlike(start: World, b: World, client: PubSub.Client, queue: seq<Command>, now: int,
                                      a': World, reply: string)
    returns (b': World, r: string)
    requires Alike(start, b, now) && RunsQueue(start, client, queue, now, a', reply)
    ensures RunsQueue(b, client, queue, now, b', r) && Alike(a', b', now) && SameRun(queue, reply, r)
  {
    var worlds, replies :| Chain(worlds, client, queue, now, replies)
      && worlds[0] == start && worlds[|queue|] == a' && reply == ExecReply(replies);
    var ws, rs := ChainAlike(worlds, client, queue, now, replies, b);
    b', r := ws[|queue|], ExecReply(rs);
    assert Alike(worlds[|queue|], ws[|queue|], now);
  }

  lemma {:induction false} ExecAlike(h: Session, a: World, b: World, client: PubSub.Client, now: int,
                                     h': Session, a': World, reply: string)
    returns (b': World, r: string)
    requires Alike(a, b, now) && Execs(h, a, client, now, h', a', reply)
    ensures Execs(h, b, client, now, h', b', r) && Alike(a', b', now)
    ensures r == reply || (h.inMulti && SameRun(h.queue, reply, r))
  {
    if !h.inMulti {
      b', r := b, reply;
    } else {
      RecordedAlike(a.store, b.store, h.snapshots, now);
      PurgesAlike(a, b, Checked(a.store, h.snapshots, now), Checked(b.store, h.snapshots, now), now);
      if AllAsRecorded(a.store, h.snapshots, now) {
        b', r := QueueAlike(AfterCheck(a, h, now), AfterCheck(b, h, now), client, h.queue, now, a', reply);
      } else {
        b', r := AfterCheck(b, h, now), reply;
      }
    }
  }

  lemma {:induction false} WatchAlike(h: Session, a: World, b: World, c: Command, now: int,
                                      h': Session, a': World, reply: string)
    returns (b': World)
    requires Alike(a, b, now) && Watches(h, a, c, now, h', a', reply)
    ensures Watches(h, b, c, now, h', b', reply) && Alike(a', b', now)
  {
    if c.args == [] || h.inMulti {
      b' := b;
    } else {
      RecordsAlike(a.store, b.store, c.args, now);
      PurgesAlike(a, b, Elements(c.args), Elements(c.args), now);
      b' := b.(store := Purge(b.store, Elements(c.args), now));
    }
  }

  lemma {:induction false} SteeringAlike(h: Session, a: World, b: World, client: PubSub.Client, c: Command, now: int,
                                         h': Session, a': World, reply: string)
    returns (b': World, r: string)
    requires Alike(a, b, now) && Steers(c) && Directs(h, a, client, c, now, h', a', reply)
    ensures Directs(h, b, client, c, now, h', b', r) && Alike(a', b', now) && SameReply(h, c, reply, r)
  {
    match VerbOf(c.name)
    case EXEC => b', r := ExecAlike(h, a, b, client, now, h', a', reply);
    case WATCH =>
      r := reply;
      b' := WatchAlike(h, a, b, c, now, h', a', reply);
    case _ => b', r := b, reply;
  }

  /** What any command does in one world, in any session, it can do in every world that looks alike. */
  lemma {:induction false} StepAlike(h: Session, a: World, b: World, client: PubSub.Client, c: Command, now: int,
                                     h': Session, a': World, reply: string)
    returns (b': World, r: string)
    requires Alike(a, b, now) && Executes(h, a, client, c, now, h', a', reply)
    ensures Executes(h, b, client, c, now, h', b', r) && Alike(a', b', now) && SameReply(h, c, reply, r)
  {
    if Subscribed(a.subs, client) && !WhileSubscribed(c) {
      b', r := b, reply;
    } else if Steers(c) {
      b', r := SteeringAlike(h, a, b, client, c, now, h', a', reply);
    } else if h.inMulti {
      b', r := b, reply;
    } else {
      b', r := There(b, c, now, a'.subs), ReplyThere(b, c, now, reply);
      PerformsAlike(a, b, client, c, now, a', reply);
    }
  }

  // ---------------------------------------------------------------------
  // Events
  // ---------------------------------------------------------------------

  /** The sessions of all clients, and the world they share. */
  datatype Scene = Scene(sessions: map<PubSub.Client, Session>, world: World)

  /** A client without an entry is idle. */
  function SessionOf(sessions: map<PubSub.Client, Session>, client: PubSub.Client): Session {
    if client in sessions then sessions[client] else IDLE
  }

  function With(sessions: map<PubSub.Client, Session>, client: PubSub.Client, h: Session): map<PubSub.Client, Session> {
    if h == IDLE then sessions - {client} else sessions[client := h]
  }

  /** A client sends a command, the background sweep looks at `sample`, or a client disconnects. */
  datatype Act =
    | Send(client: PubSub.Client, command: Command, now: int)
    | Sweep(sample: set<string>, at: int)
    | Drop(gone: PubSub.Client, left: int)

  function When(act: Act): int {
    match act
    case Send(_, _, now) => now
    case Sweep(_, at) => at
    case Drop(_, left) => left
  }

  ghost predicate Sent(s: Scene, client: PubSub.Client, c: Command, now: int, s': Scene, reply: string) {
    var h, h' := SessionOf(s.sessions, client), SessionOf(s'.sessions, client);
    s'.sessions == With(s.sessions, client, h') && Executes(h, s.world, client, c, now, h', s'.world, reply)
  }

  function Swept(s: Scene, sample: set<string>, at: int): Scene {
    s.(world := World(Purge(s.world.store, sample, at), s.world.subs))
  }

  ghost predicate Happens(s: Scene, act: Act, s': Scene, reply: string) {
    match act
    case Send(client, c, now) => Sent(s, client, c, now, s', reply)
    case Sweep(sample, at) => s' == Swept(s, sample, at)
    case Drop(client, _) => s' == Scene(s.sessions - {client}, Dropped(s.world, client))
  }

  /** `scenes` is what a course of events goes through; only a command has a reply to speak of. */
  ghost predicate Course(scenes: seq<Scene>, acts: seq<Act>, replies: seq<string>)
    decreases |acts|
  {
    && |scenes| == |acts| + 1 && |replies| == |acts|
    && (acts != [] ==>
          && Happens(scenes[0], acts[0], scenes[1], replies[0])
          && Course(scenes[1..], acts[1..], replies[1..]))
  }

  lemma {:induction false} CourseFrom(s: Scene, act: Act, reply: string, scenes: seq<Scene>, acts: seq<Act>,
                                      replies: seq<string>)
    requires Course(scenes, acts, replies) && Happens(s, act, scenes[0], reply)
    ensures Course([s] + scenes, [act] + acts, [reply] + replies)
  {
    assert ([s] + scenes)[1..] == scenes && ([act] + acts)[1..] == acts && ([reply] + replies)[1..] == replies;
  }

  lemma {:induction false} CourseAt(scenes: seq<Scene>, acts: seq<Act>, replies: seq<string>, i: nat)
    requires Course(scenes, acts, replies) && i < |acts|
    ensures Happens(scenes[i], acts[i], scenes[i + 1], replies[i])
    decreases i
  {
    if i == 0 {
    } else {
      CourseAt(scenes[1..], acts[1..], replies[1..], i - 1);
    }
  }

  // ---------------------------------------------------------------------
  // A course is a run of each client
  // ---------------------------------------------------------------------

  function MomentOf(s: Scene, client: PubSub.Client): Moment {
    Moment(SessionOf(s.sessions, client), s.world)
  }

  function StepOf(act: Act, reply: string, client: PubSub.Client): Step {
    if act.Send? && act.client == client then Mine(act.command, act.now, reply) else Others
  }

  lemma {:induction false} OtherSent(s: Scene, other: PubSub.Client, c: Command, now: int, s': Scene, reply: string,
                                     client: PubSub.Client)
    requires Sent(s, other, c, now, s', reply) && other != client
    ensures Takes(client, MomentOf(s, client), Others, MomentOf(s', client))
  {
    var h, h' := SessionOf(s.sessions, other), SessionOf(s'.sessions, other);
    OthersInterfere(h, s.world, other, c, now, h', s'.world, reply, client);
  }

  lemma {:induction false} HappensTakes(s: Scene, act: Act, s': Scene, reply: string, client: PubSub.Client)
    requires Happens(s, act, s', reply) && !(act.Drop? && act.gone == client)
    ensures Takes(client, MomentOf(s, client), StepOf(act, reply, client), MomentOf(s', client))
  {
    match act
    case Send(other, c, now) => if other != client { OtherSent(s, other, c, now, s', reply, client); }
    case Sweep(sample, at) => SweepInterferes(s.world, sample, at, client);
    case Drop(other, _) => DropInterferes(s.world, other, client);
  }

  function MomentsOf(scenes: seq<Scene>, client: PubSub.Client): (moments: seq<Moment>)
    ensures |moments| == |scenes|
  {
    seq(|scenes|, i requires 0 <= i < |scenes| => MomentOf(scenes[i], client))
  }

  function StepsOf(acts: seq<Act>, replies: seq<string>, client: PubSub.Client): (steps: seq<Step>)
    requires |replies| == |acts|
    ensures |steps| == |acts|
  {
    seq(|acts|, i requires 0 <= i < |acts| => StepOf(acts[i], replies[i], client))
  }

  /** To each client that stays, a course of events is a run in which the rest of the system is at work. */
  lemma {:induction false} CourseIsRun(scenes: seq<Scene>, acts: seq<Act>, replies: seq<string>, client: PubSub.Client)
    requires Course(scenes, acts, replies)
    requires forall i :: 0 <= i < |acts| ==> !(acts[i].Drop? && acts[i].gone == client)
    ensures IsRun(client, MomentsOf(scenes, client), StepsOf(acts, replies, client))
  {
    var moments, steps := MomentsOf(scenes, client), StepsOf(acts, replies, client);
    forall i | 0 <= i < |steps| ensures TakesAt(client, moments, steps, i) {
      CourseAt(scenes, acts, replies, i);
      HappensTakes(scenes[i], acts[i], scenes[i + 1], replies[i], client);
      SameTakes(client, MomentOf(scenes[i], client), StepOf(acts[i], replies[i], client),
                MomentOf(scenes[i + 1], client),
                moments, steps, i);
    }
  }

  // ---------------------------------------------------------------------
  // What clients say and hear
  // ---------------------------------------------------------------------

  /** The events but for the sweeps. */
  function Deeds(acts: seq<Act>): seq<Act> {
    if acts == [] then []
    else if acts[0].Sweep? then Deeds(acts[1..])
    else [acts[0]] + Deeds(acts[1..])
  }

  /** A command, the session it found, and the reply. */
  datatype Exchange = Exchange(client: PubSub.Client, command: Command, session: Session, reply: string)

  /** What one event adds to the exchanges. */
  function Said(s: Scene, act: Act, reply: string): seq<Exchange> {
    if act.Send? then [Exchange(act.client, act.command, SessionOf(s.sessions, act.client), reply)] else []
  }

  function Exchanges(scenes: seq<Scene>, acts: seq<Act>, replies: seq<string>): seq<Exchange>
    requires |scenes| == |acts| + 1 && |replies| == |acts|
    decreases |acts|
  {
    if acts == [] then []
    else Said(scenes[0], acts[0], replies[0]) + Exchanges(scenes[1..], acts[1..], replies[1..])
  }

  /** The same commands in the same sessions, with the same replies but for the counts of DEL. */
  ghost predicate Agreed(x: Exchange, y: Exchange) {
    x.client == y.client && x.command == y.command && x.session == y.session &&
      SameReply(x.session, x.command, x.reply, y.reply)
  }

  ghost predicate AllAgreed(xs: seq<Exchange>, ys: seq<Exchange>) {
    |xs| == |ys| && forall i :: 0 <= i < |xs| ==> Agreed(xs[i], ys[i])
  }

  lemma {:induction false} AgreedConcat(xs: seq<Exchange>, ys: seq<Exchange>, xs': seq<Exchange>, ys': seq<Exchange>)
    requires AllAgreed(xs, ys) && AllAgreed(xs', ys')
    ensures AllAgreed(xs + xs', ys + ys')
  {
  }

  /** When the next event other than a sweep happens. */
  function Next(acts: seq<Act>, until: int): int {
    if acts == [] then until
    else if acts[0].Sweep? then Next(acts[1..], until)
    else When(acts[0])
  }

  lemma {:induction false} NextIsLater(from: int, acts: seq<Act>, until: int)
    requires Clocked(When, from, acts, until)
    ensures from <= Next(acts, until)
    decreases |acts|
  {
    if acts == [] {
    } else if acts[0].Sweep? {
      NextIsLater(When(acts[0]), acts[1..], until);
    }
  }

  lemma {:induction false} NextFromDeeds(acts: seq<Act>, until: int)
    ensures Next(acts, until) == if Deeds(acts) == [] then until else When(Deeds(acts)[0])
    decreases |acts|
  {
    if acts == [] {
    } else if acts[0].Sweep? {
      NextFromDeeds(acts[1..], until);
    }
  }

  // ---------------------------------------------------------------------
  // Sweeps cannot be seen
  // ---------------------------------------------------------------------

  /** Same sessions, same live view, same subscriptions. */
  ghost predicate Twin(a: Scene, b: Scene, now: int) {
    a.sessions == b.sessions && Alike(a.world, b.world, now)
  }

  lemma {:induction false} SweepTwin(a: Scene, b: Scene, sample: set<string>, at: int, later: int)
    requires Twin(a, b, later) && at <= later
    ensures Twin(Swept(a, sample, at), b, later) && Twin(a, Swept(b, sample, at), later)
  {
    Expiry.PurgeInvisible(a.world.store, sample, at, later);
    Expiry.PurgeInvisible(b.world.store, sample, at, later);
  }

  lemma {:induction false} SendTwin(a: Scene, b: Scene, client: PubSub.Client, c: Command, now: int, a': Scene,
                                    reply: string)
    returns (b': Scene, r: string)
    requires Twin(a, b, now) && Sent(a, client, c, now, a', reply)
    ensures Sent(b, client, c, now, b', r) && Twin(a', b', now)
    ensures SameReply(SessionOf(a.sessions, client), c, reply, r)
  {
    var h, h' := SessionOf(a.sessions, client), SessionOf(a'.sessions, client);
    var w;
    w, r := StepAlike(h, a.world, b.world, client, c, now, h', a'.world, reply);
    b' := Scene(a'.sessions, w);
  }

  lemma {:induction false} DeedTwin(a: Scene, b: Scene, act: Act, a': Scene, reply: string)
    returns (b': Scene, r: string)
    requires !act.Sweep? && Twin(a, b, When(act)) && Happens(a, act, a', reply)
    ensures Happens(b, act, b', r) && Twin(a', b', When(act)) && AllAgreed(Said(a, act, reply), Said(b, act, r))
  {
    match act
    case Send(client, c, now) => b', r := SendTwin(a, b, client, c, now, a', reply);
    case Drop(client, _) => b', r := Scene(b.sessions - {client}, Dropped(b.world, client)), reply;
  }

  lemma {:induction false} DeedLater(a: Scene, b: Scene, act: Act, a': Scene, reply: string, rest: seq<Act>, until: int)
    returns (b': Scene, r: string)
    requires !act.Sweep? && Twin(a, b, When(act)) && Happens(a, act, a', reply) && Clocked(When, When(act), rest, until)
    ensures Happens(b, act, b', r) && Twin(a', b', Next(rest, until)) && AllAgreed(Said(a, act, reply), Said(b, act, r))
  {
    b', r := DeedTwin(a, b, act, a', reply);
    NextIsLater(When(act), rest, until);
    AlikeLater(a'.world, b'.world, When(act), Next(rest, until));
  }

  /** What `SameCourse` states of two courses. */
  ghost predicate Matches(scenes: seq<Scene>, acts: seq<Act>, replies: seq<string>,
                          ss: seq<Scene>, plan: seq<Act>, rs: seq<string>, until: int)
  {
    && |scenes| == |acts| + 1 && |replies| == |acts| && Course(ss, plan, rs)
    && Twin(scenes[|acts|], ss[|plan|], until)
    && AllAgreed(Exchanges(scenes, acts, replies), Exchanges(ss, plan, rs))
  }

  /**
   Two scenes that look alike, given the same commands of the same clients at the
   same times, can give the same replies, but for the counts of DEL, and look
   alike again, whatever sweeps happen in either.
   */
  lemma {:induction false} SameCourse(scenes: seq<Scene>, acts: seq<Act>, replies: seq<string>,
                                      b: Scene, plan: seq<Act>, from: int, start: int, until: int)
    returns (ss: seq<Scene>, rs: seq<string>)
    requires Course(scenes, acts, replies) && Deeds(acts) == Deeds(plan)
    requires Clocked(When, from, acts, until) && Clocked(When, start, plan, until)
    requires Twin(scenes[0], b, Next(acts, until))
    ensures Matches(scenes, acts, replies, ss, plan, rs, until) && ss[0] == b
    decreases |acts| + |plan|
  {
    NextFromDeeds(acts, until);
    NextFromDeeds(plan, until);
    if plan != [] && plan[0].Sweep? {
      ss, rs := PlanSweeps(scenes, acts, replies, b, plan, from, start, until);
    } else if acts != [] && acts[0].Sweep? {
      NextIsLater(When(acts[0]), acts[1..], until);
      SweepTwin(scenes[0], b, acts[0].sample, acts[0].at, Next(acts, until));
      ss, rs := SameCourse(scenes[1..], acts[1..], replies[1..], b, plan, When(acts[0]), start, until);
      SweepFirst(scenes, acts, replies, ss, plan, rs, until);
    } else if acts == [] {
      ss, rs := [b], [];
    } else {
      ss, rs := BothAct(scenes, acts, replies, b, plan, from, start, until);
    }
  }

  lemma {:induction false} SweepFirst(scenes: seq<Scene>, acts: seq<Act>, replies: seq<string>,
                                      ss: seq<Scene>, plan: seq<Act>, rs: seq<string>, until: int)
    requires |scenes| == |acts| + 1 && |replies| == |acts| && acts != [] && acts[0].Sweep?
    requires Matches(scenes[1..], acts[1..], replies[1..], ss, plan, rs, until)
    ensures Matches(scenes, acts, replies, ss, plan, rs, until)
  {
    assert [] + Exchanges(scenes[1..], acts[1..], replies[1..]) == Exchanges(scenes[1..], acts[1..], replies[1..]);
  }

  /** One event more at the head of the second course. */
  lemma {:induction false} Longer(b: Scene, act: Act, r: string, ss: seq<Scene>, plan: seq<Act>, rs: seq<string>)
    requires Course(ss, plan, rs) && Happens(b, act, ss[0], r)
    ensures Course([b] + ss, [act] + plan, [r] + rs)
    ensures Exchanges([b] + ss, [act] + plan, [r] + rs) == Said(b, act, r) + Exchanges(ss, plan, rs)
    ensures ([b] + ss)[|[act] + plan|] == ss[|plan|]
  {
    CourseFrom(b, act, r, ss, plan, rs);
    assert ([b] + ss)[1..] == ss && ([act] + plan)[1..] == plan && ([r] + rs)[1..] == rs;
  }

  lemma {:induction false} PlanSweeps(scenes: seq<Scene>, acts: seq<Act>, replies: seq<string>,
                                      b: Scene, plan: seq<Act>, from: int, start: int, until: int)
    returns (ss: seq<Scene>, rs: seq<string>)
    requires Course(scenes, acts, replies) && Deeds(acts) == Deeds(plan)
    requires Clocked(When, from, acts, until) && Clocked(When, start, plan, until)
    requires Twin(scenes[0], b, Next(acts, until)) && Next(acts, until) == Next(plan, until)
    requires plan != [] && plan[0].Sweep?
    ensures Matches(scenes, acts, replies, ss, plan, rs, until) && ss[0] == b
    decreases |acts| + |plan|, 0
  {
    var swept := Swept(b, plan[0].sample, plan[0].at);
    NextIsLater(When(plan[0]), plan[1..], until);
    SweepTwin(scenes[0], b, plan[0].sample, plan[0].at, Next(acts, until));
    var ss', rs' := SameCourse(scenes, acts, replies, swept, plan[1..], from, When(plan[0]), until);
    Longer(b, plan[0], "", ss', plan[1..], rs');
    assert [plan[0]] + plan[1..] == plan;
    ss, rs := [b] + ss', [""] + rs';
    assert [] + Exchanges(ss', plan[1..], rs') == Exchanges(ss', plan[1..], rs');
  }

  lemma {:induction false} FirstDeed(acts: seq<Act>, plan: seq<Act>)
    requires Deeds(acts) == Deeds(plan) && acts != [] && !acts[0].Sweep? && (plan != [] ==> !plan[0].Sweep?)
    ensures plan != [] && plan[0] == acts[0] && Deeds(acts[1..]) == Deeds(plan[1..])
  {
    assert Deeds(acts)[0] == acts[0];
    assert plan != [];
    assert Deeds(plan)[0] == plan[0];
    assert Deeds(acts)[1..] == Deeds(acts[1..]) && Deeds(plan)[1..] == Deeds(plan[1..]);
  }

  lemma {:induction false} BothAct(scenes: seq<Scene>, acts: seq<Act>, replies: seq<string>,
                                   b: Scene, plan: seq<Act>, from: int, start: int, until: int)
    returns (ss: seq<Scene>, rs: seq<string>)
    requires Course(scenes, acts, replies) && Deeds(acts) == Deeds(plan)
    requires Clocked(When, from, acts, until) && Clocked(When, start, plan, until)
    requires Twin(scenes[0], b, Next(acts, until))
    requires acts != [] && !acts[0].Sweep? && (plan != [] ==> !plan[0].Sweep?)
    ensures Matches(scenes, acts, replies, ss, plan, rs, until) && ss[0] == b
    decreases |acts| + |plan|, 0
  {
    FirstDeed(acts, plan);
    var act := acts[0];
    var b', r := DeedLater(scenes[0], b, act, scenes[1], replies[0], acts[1..], until);
    var ss', rs' := SameCourse(scenes[1..], acts[1..], replies[1..], b', plan[1..], When(act), When(act), until);
    DeedFirst(scenes, acts, replies, b, plan, r, ss', rs', until);
    ss, rs := [b] + ss', [r] + rs';
  }

  lemma {:induction false} AgreedFirst(scenes: seq<Scene>, acts: seq<Act>, replies: seq<string>,
                                       said: seq<Exchange>, rest: seq<Exchange>)
    requires |scenes| == |acts| + 1 && |replies| == |acts| && acts != []
    requires AllAgreed(Said(scenes[0], acts[0], replies[0]), said)
    requires AllAgreed(Exchanges(scenes[1..], acts[1..], replies[1..]), rest)
    ensures AllAgreed(Exchanges(scenes, acts, replies), said + rest)
  {
    AgreedConcat(Said(scenes[0], acts[0], replies[0]), said, Exchanges(scenes[1..], acts[1..], replies[1..]), rest);
  }

  lemma {:induction false} DeedFirst(scenes: seq<Scene>, acts: seq<Act>, replies: seq<string>, b: Scene, plan: seq<Act>,
                                     r: string, ss: seq<Scene>, rs: seq<string>, until: int)
    requires |scenes| == |acts| + 1 && |replies| == |acts| && acts != [] && plan != [] && plan[0] == acts[0]
    requires Matches(scenes[1..], acts[1..], replies[1..], ss, plan[1..], rs, until)
    requires Happens(b, plan[0], ss[0], r) && AllAgreed(Said(scenes[0], acts[0], replies[0]), Said(b, plan[0], r))
    ensures Matches(scenes, acts, replies, [b] + ss, plan, [r] + rs, until)
  {
    Longer(b, plan[0], r, ss, plan[1..], rs);
    assert [plan[0]] + plan[1..] == plan;
    Prolonged(scenes, acts, replies, Said(b, plan[0], r), ss, plan[1..], rs, [b] + ss, plan, [r] + rs, until);
  }

  lemma {:induction false} Prolonged(scenes: seq<Scene>, acts: seq<Act>, replies: seq<string>, said: seq<Exchange>,
                                     ss: seq<Scene>, plan: seq<Act>, rs: seq<string>,
                                     ss': seq<Scene>, plan': seq<Act>, rs': seq<string>, until: int)
    requires |scenes| == |acts| + 1 && |replies| == |acts| && acts != []
    requires Matches(scenes[1..], acts[1..], replies[1..], ss, plan, rs, until)
    requires AllAgreed(Said(scenes[0], acts[0], replies[0]), said)
    requires Course(ss', plan', rs') && ss'[|plan'|] == ss[|plan|]
    requires Exchanges(ss', plan', rs') == said + Exchanges(ss, plan, rs)
    ensures Matches(scenes, acts, replies, ss', plan', rs', until)
  {
    AgreedFirst(scenes, acts, replies, said, Exchanges(ss, plan, rs));
  }
}
