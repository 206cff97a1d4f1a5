/**
 Expiry is invisible: what a client can observe is a function of the live view,
 however lazy removals and background sweeps are interleaved.
 */
module Expiry {
  import opened Base
  import opened Store

  // ---------------------------------------------------------------------
  // Removal of expired keys
  // ---------------------------------------------------------------------

  /** Removing expired keys is not visible at that moment or later. */
  lemma {:induction false} PurgeInvisible(s: Store, keys: set<string>, now: int, later: int)
    requires Consistent(s) && now <= later
    ensures Consistent(Purge(s, keys, now))
    ensures Live(Purge(s, keys, now), later) == Live(s, later)
  {
    var p := Purge(s, keys, now);
    forall k
      ensures k in Live(p, later) <==> k in Live(s, later)
      ensures k in Live(s, later) ==> Live(p, later)[k] == Live(s, later)[k]
    {
    }
  }

  /** The view at a later time is the aged view. */
  lemma {:induction false} LiveAges(s: Store, now: int, later: int)
    requires now <= later
    ensures Live(s, later) == Age(Live(s, now), later)
  {
  }

  lemma {:induction false} PurgeKeepsLists(s: Store, keys: set<string>, now: int)
    requires NoEmptyList(s)
    ensures NoEmptyList(Purge(s, keys, now))
  {
  }

  // ---------------------------------------------------------------------
  // Each operation refines its counterpart on the live view
  // ---------------------------------------------------------------------

  lemma {:induction false} LiveLookup(s: Store, key: string, now: int)
    ensures Lookup(Live(s, now), key) == EntryAt(s, key, now)
  {
  }

  /** Views are compared key by key. */
  lemma {:induction false} SameView(s: Store, now: int, v: View)
    requires forall k :: EntryAt(s, k, now) == Lookup(v, k)
    ensures Live(s, now) == v
  {
    forall k
      ensures k in Live(s, now) <==> k in v
      ensures k in v ==> Live(s, now)[k] == v[k]
    {
      assert EntryAt(s, k, now) == Lookup(v, k);
    }
  }

  lemma {:induction false} LiveKeys(s: Store, now: int)
    ensures Live(s, now).Keys == LiveStrings(s, now) + LiveLists(s, now)
  {
  }

  lemma {:induction false} PurgedListAt(s: Store, key: string, now: int)
    requires Consistent(s)
    ensures ListAt(Purge(s, {key}, now), key) == ItemsAt(Live(s, now), key)
    ensures key in LiveStrings(s, now) <==> HoldsString(Live(s, now), key)
    ensures key in Purge(s, {key}, now).strings <==> HoldsString(Live(s, now), key)
    ensures key in Purge(s, {key}, now).lists <==> key in Live(s, now) && !HoldsString(Live(s, now), key)
  {
    LiveLookup(s, key, now);
  }

  lemma {:induction false} ListAnswersFromView(s: Store, op: Op, now: int)
    requires Consistent(s)
    requires op.LPush? || op.RPush? || op.LPop? || op.RPop? || op.LRange? || op.LLen? || op.LIndex?
    ensures AnswerTo(s, op, now) == ViewAnswer(Live(s, now), op, now)
  {
    PurgedListAt(s, op.key, now);
  }

  lemma {:induction false} KeyAnswersFromView(s: Store, op: Op, now: int)
    requires Consistent(s)
    requires op.Get? || op.Expire? || op.Persist?
    ensures AnswerTo(s, op, now) == ViewAnswer(Live(s, now), op, now)
  {
    LiveLookup(s, op.key, now);
  }

  lemma {:induction false} TtlFromView(s: Store, key: string, now: int)
    requires Consistent(s)
    ensures AnswerTo(s, Ttl(key), now) == ViewAnswer(Live(s, now), Ttl(key), now)
  {
    LiveLookup(s, key, now);
  }

  lemma {:induction false} SizeFromView(s: Store, now: int)
    requires Consistent(s)
    ensures |LiveStrings(s, now)| + |LiveLists(s, now)| == |Live(s, now)|
  {
    LiveKeys(s, now);
    assert LiveStrings(s, now) !! LiveLists(s, now);
    assert |Live(s, now)| == |Live(s, now).Keys|;
  }

  /** Every answer but DEL's count is a function of the live view. */
  lemma {:induction false} AnswersFromView(s: Store, op: Op, now: int)
    requires Consistent(s)
    requires !op.Del?
    ensures AnswerTo(s, op, now) == ViewAnswer(Live(s, now), op, now)
  {
    match op
    case Set(_, _) =>
    case FlushDb =>
    case Exists(_) => LiveKeys(s, now);
    case Keys => LiveKeys(s, now);
    case DbSize => SizeFromView(s, now);
    case Get(_) => KeyAnswersFromView(s, op, now);
    case Expire(_, _) => KeyAnswersFromView(s, op, now);
    case Ttl(k) => TtlFromView(s, k, now);
    case Persist(_) => KeyAnswersFromView(s, op, now);
    case _ => ListAnswersFromView(s, op, now);
  }

  lemma {:induction false} PushRefines(s: Store, key: string, list: seq<string>, now: int)
    requires Consistent(s)
    requires key !in Purge(s, {key}, now).strings
    ensures
      var p := Purge(s, {key}, now);
      var q := p.(lists := p.lists[key := list]);
      Consistent(q) && Live(q, now) == WithItems(Live(s, now), key, list)
  {
    var p := Purge(s, {key}, now);
    var q := p.(lists := p.lists[key := list]);
    forall k ensures EntryAt(q, k, now) == Lookup(WithItems(Live(s, now), key, list), k) {
      LiveLookup(s, k, now);
    }
    SameView(q, now, WithItems(Live(s, now), key, list));
  }

  lemma {:induction false} DropRefines(s: Store, key: string, now: int)
    requires Consistent(s)
    requires key in Purge(s, {key}, now).lists
    ensures
      var q := PutList(Purge(s, {key}, now), key, []);
      Consistent(q) && Live(q, now) == Live(s, now) - {key}
  {
    var q := PutList(Purge(s, {key}, now), key, []);
    forall k ensures EntryAt(q, k, now) == Lookup(Live(s, now) - {key}, k) {
      LiveLookup(s, k, now);
    }
    SameView(q, now, Live(s, now) - {key});
  }

  lemma {:induction false} PushOpRefines(s: Store, op: Op, now: int)
    requires Consistent(s)
    requires op.LPush? || op.RPush?
    ensures Consistent(Apply(s, op, now))
    ensures Live(Apply(s, op, now), now) == ViewApply(Live(s, now), op, now)
  {
    var p := Purge(s, {op.key}, now);
    PurgeInvisible(s, {op.key}, now, now);
    PurgedListAt(s, op.key, now);
    if op.key !in p.strings {
      var xs := ListAt(p, op.key);
      PushRefines(s, op.key, if op.LPush? then Reverse(op.items) + xs else xs + op.items, now);
    }
  }

  ghost predicate OpRefined(s: Store, op: Op, now: int) {
    Consistent(Apply(s, op, now)) && Live(Apply(s, op, now), now) == ViewApply(Live(s, now), op, now)
  }

  lemma {:induction false} LastPopRefines(s: Store, op: Op, now: int, xs: seq<string>)
    requires Consistent(s) && (op.LPop? || op.RPop?) && |xs| <= 1
    requires var p := Purge(s, {op.key}, now); op.key in p.lists && p.lists[op.key] == xs
    ensures OpRefined(s, op, now)
  {
    PurgedListAt(s, op.key, now);
    DropRefines(s, op.key, now);
  }

  lemma {:induction false} PopRefines(s: Store, op: Op, now: int, xs: seq<string>)
    requires Consistent(s) && (op.LPop? || op.RPop?) && |xs| > 1
    requires var p := Purge(s, {op.key}, now); op.key in p.lists && p.lists[op.key] == xs
    ensures OpRefined(s, op, now)
  {
    PurgedListAt(s, op.key, now);
    var rest := if op.LPop? then xs[1..] else xs[..|xs| - 1];
    assert rest != [];
    PushRefines(s, op.key, rest, now);
  }

  lemma {:induction false} PopOpRefines(s: Store, op: Op, now: int)
    requires Consistent(s)
    requires op.LPop? || op.RPop?
    ensures OpRefined(s, op, now)
  {
    var p := Purge(s, {op.key}, now);
    if op.key !in p.lists {
      PurgeInvisible(s, {op.key}, now, now);
      PurgedListAt(s, op.key, now);
    } else if |p.lists[op.key]| <= 1 {
      LastPopRefines(s, op, now, p.lists[op.key]);
    } else {
      PopRefines(s, op, now, p.lists[op.key]);
    }
  }

  lemma {:induction false} SetRefines(s: Store, key: string, text: string, now: int)
    requires Consistent(s)
    ensures
      var q := Apply(s, Set(key, text), now);
      Consistent(q) && Live(q, now) == Live(s, now)[key := Entry(Str(text), None)]
  {
    var q := Apply(s, Set(key, text), now);
    var v := Live(s, now)[key := Entry(Str(text), None)];
    forall k ensures EntryAt(q, k, now) == Lookup(v, k) {
      LiveLookup(s, k, now);
    }
    SameView(q, now, v);
  }

  lemma {:induction false} DelRefines(s: Store, keys: seq<string>, now: int)
    requires Consistent(s)
    ensures
      var q := Apply(s, Del(keys), now);
      Consistent(q) && Live(q, now) == Live(s, now) - Elements(keys)
  {
    var q := Apply(s, Del(keys), now);
    var v := Live(s, now) - Elements(keys);
    forall k ensures EntryAt(q, k, now) == Lookup(v, k) {
      LiveLookup(s, k, now);
    }
    SameView(q, now, v);
  }

  lemma {:induction false} WithDeadlineRefines(s: Store, expiry: map<string, int>, key: string, v: View, now: int)
    requires Consistent(s) && key in Live(s, now) && expiry - {key} == s.expiry - {key}
    requires key in expiry && now < expiry[key] ==>
      v == Live(s, now)[key := Entry(EntryOf(s, key).value, Some(expiry[key]))]
    requires key in expiry && expiry[key] <= now ==> v == Live(s, now) - {key}
    requires key !in expiry ==> v == Live(s, now)[key := Entry(EntryOf(s, key).value, None)]
    ensures Consistent(s.(expiry := expiry)) && Live(s.(expiry := expiry), now) == v
  {
    var q := s.(expiry := expiry);
    forall k ensures k != key ==> (k in expiry <==> k in s.expiry) && (k in expiry ==> expiry[k] == s.expiry[k]) {
      assert k in expiry - {key} <==> k in expiry && k != key;
      assert k in s.expiry - {key} <==> k in s.expiry && k != key;
      if k != key && k in expiry { assert (expiry - {key})[k] == expiry[k]; }
    }
    forall k ensures EntryAt(q, k, now) == Lookup(v, k) {
      LiveLookup(s, k, now);
    }
    SameView(q, now, v);
  }

  lemma {:induction false} ExpireRefines(s: Store, key: string, seconds: int, now: int)
    requires Consistent(s)
    ensures
      var q := Apply(s, Expire(key, seconds), now);
      Consistent(q) && Live(q, now) == ViewApply(Live(s, now), Expire(key, seconds), now)
  {
    LiveLookup(s, key, now);
    PurgeInvisible(s, {key}, now, now);
    if key in Live(s, now) {
      WithDeadlineRefines(s, s.expiry[key := SecondsAfter(now, seconds)], key,
                          ViewApply(Live(s, now), Expire(key, seconds), now), now);
    }
  }

  lemma {:induction false} PersistRefines(s: Store, key: string, now: int)
    requires Consistent(s)
    ensures
      var q := Apply(s, Persist(key), now);
      Consistent(q) && Live(q, now) == ViewApply(Live(s, now), Persist(key), now)
  {
    LiveLookup(s, key, now);
    PurgeInvisible(s, {key}, now, now);
    if key in Live(s, now) {
      WithDeadlineRefines(s, s.expiry - {key}, key, ViewApply(Live(s, now), Persist(key), now), now);
    }
  }

  lemma {:induction false} ReadRefines(s: Store, op: Op, now: int)
    requires Consistent(s)
    requires op.Get? || op.Exists? || op.Keys? || op.DbSize? || op.LRange? || op.LLen? || op.LIndex? || op.Ttl?
    ensures Consistent(Apply(s, op, now))
    ensures Live(Apply(s, op, now), now) == Live(s, now)
  {
    PurgeInvisible(s, Stored(s), now, now);
    if op.Exists? {
      PurgeInvisible(s, Elements(op.keys), now, now);
    } else if !op.Keys? && !op.DbSize? {
      PurgeInvisible(s, {op.key}, now, now);
    }
  }

  /** One operation on the maps is the same operation on the live view. */
  lemma {:induction false} Refines(s: Store, op: Op, now: int)
    requires Consistent(s)
    ensures Consistent(Apply(s, op, now))
    ensures Live(Apply(s, op, now), now) == ViewApply(Live(s, now), op, now)
  {
    match op
    case Set(k, x) => SetRefines(s, k, x, now);
    case Del(ks) => DelRefines(s, ks, now);
    case FlushDb =>
    case LPush(_, _) => PushOpRefines(s, op, now);
    case RPush(_, _) => PushOpRefines(s, op, now);
    case LPop(_) => PopOpRefines(s, op, now);
    case RPop(_) => PopOpRefines(s, op, now);
    case Expire(k, seconds) => ExpireRefines(s, k, seconds, now);
    case Persist(k) => PersistRefines(s, k, now);
    case _ => ReadRefines(s, op, now);
  }

  lemma {:induction false} SplitCount(named: set<string>, stored: set<string>, live: set<string>)
    requires live <= stored
    ensures |named * stored| == |named * live| + |named * (stored - live)|
  {
    assert named * stored == named * live + named * (stored - live);
  }

  lemma {:induction false} LiveStored(s: Store, key: string, now: int)
    ensures key in Live(s, now) <==> key in Stored(s) && !Expired(s, key, now)
  {
    LiveLookup(s, key, now);
  }

  /** DEL's count, alone, is not a function of the live view: it is one exactly
      when none of the named keys is expired and still stored. */
  lemma {:induction false} DelCountExact(s: Store, keys: seq<string>, now: int)
    requires Consistent(s)
    ensures AnswerTo(s, Del(keys), now) == ViewAnswer(Live(s, now), Del(keys), now)
       <==> forall k :: k in keys && k in Stored(s) ==> !Expired(s, k, now)
  {
    var named, live := Elements(keys), Live(s, now).Keys;
    SplitCount(named, Stored(s), live);
    forall k ensures k in named * (Stored(s) - live) <==> k in keys && k in Stored(s) && Expired(s, k, now) {
      LiveStored(s, k, now);
    }
    NoneLeft(named * (Stored(s) - live));
  }

  lemma {:induction false} NoneLeft(stale: set<string>)
    ensures |stale| == 0 <==> forall k :: k !in stale
  {
    if |stale| == 0 { assert stale == {}; }
  }

  /** Two stores that look alike and count differently: one has swept the key. */
  lemma {:induction false} DelCountDiffers()
    ensures
      var unswept := Store(map["k" := "v"], map[], map["k" := 0]);
      && Consistent(unswept) && Consistent(EMPTY)
      && Live(unswept, 1) == Live(EMPTY, 1)
      && AnswerTo(unswept, Del(["k"]), 1) == Count(1)
      && AnswerTo(EMPTY, Del(["k"]), 1) == Count(0)
  {
    var unswept := Store(map["k" := "v"], map[], map["k" := 0]);
    assert Elements(["k"]) * Stored(unswept) == {"k"} by { assert "k" in ["k"]; }
    assert Elements(["k"]) * Stored(EMPTY) == {};
  }

  // ---------------------------------------------------------------------
  // Runs
  // ---------------------------------------------------------------------

  datatype Request = Request(op: Op, now: int)

  /** One locked step: a client's request, or a sweep that looked at `sample`. */
  datatype Event = Client(request: Request) | Sweep(sample: set<string>, at: int)

  function Time(e: Event): int {
    match e
    case Client(r) => r.now
    case Sweep(_, at) => at
  }

  function StepStore(s: Store, e: Event): Store {
    match e
    case Client(r) => Apply(s, r.op, r.now)
    case Sweep(sample, at) => Purge(s, sample, at)
  }

  function RunStore(s: Store, events: seq<Event>): Store
    decreases |events|
  {
    if events == [] then s else RunStore(StepStore(s, events[0]), events[1..])
  }

  function Replies(s: Store, events: seq<Event>): seq<Answer>
    decreases |events|
  {
    if events == [] then []
    else
      var rest := Replies(StepStore(s, events[0]), events[1..]);
      match events[0]
      case Client(r) => [AnswerTo(s, r.op, r.now)] + rest
      case Sweep(_, _) => rest
  }

  function Requests(events: seq<Event>): seq<Request> {
    if events == [] then []
    else match events[0]
      case Client(r) => [r] + Requests(events[1..])
      case Sweep(_, _) => Requests(events[1..])
  }

  /** The reference run: the live view alone, which never sees a sweep. */
  function RunView(v: View, requests: seq<Request>): View
    decreases |requests|
  {
    if requests == [] then v
    else
      var r := requests[0];
      RunView(ViewApply(Age(v, r.now), r.op, r.now), requests[1..])
  }

  function ViewReplies(v: View, requests: seq<Request>): seq<Answer>
    decreases |requests|
  {
    if requests == [] then []
    else
      var r := requests[0];
      [ViewAnswer(Age(v, r.now), r.op, r.now)]
      + ViewReplies(ViewApply(Age(v, r.now), r.op, r.now), requests[1..])
  }

  /** Equal except where the request was a DEL, whose count may differ. */
  ghost predicate SameButDel(a: seq<Answer>, b: seq<Answer>, requests: seq<Request>) {
    && |a| == |b| == |requests|
    && forall i :: 0 <= i < |a| ==> requests[i].op.Del? || a[i] == b[i]
  }

  lemma {:induction false} AgeTwice(v: View, now: int, later: int)
    requires now <= later
    ensures Age(Age(v, now), later) == Age(v, later)
  {
  }

  /** What has to be known of `requests` to age the view they start from. */
  ghost predicate NotBefore(now: int, requests: seq<Request>, until: int) {
    now <= (if requests == [] then until else requests[0].now)
  }

  lemma {:induction false} ClockedRequests(from: int, events: seq<Event>, until: int)
    requires Clocked(Time, from, events, until)
    ensures NotBefore(from, Requests(events), until)
    decreases |events|
  {
    if events == [] || !events[0].Sweep? {
    } else {
      ClockedRequests(Time(events[0]), events[1..], until);
    }
  }

  lemma {:induction false} RunViewAged(v: View, requests: seq<Request>, now: int, until: int)
    requires NotBefore(now, requests, until)
    ensures Age(RunView(Age(v, now), requests), until) == Age(RunView(v, requests), until)
    ensures ViewReplies(Age(v, now), requests) == ViewReplies(v, requests)
  {
    AgeTwice(v, now, if requests == [] then until else requests[0].now);
  }

  /** What `RunRefines` states of one run. */
  ghost predicate RefinesView(s: Store, v: View, events: seq<Event>, until: int) {
    && Consistent(RunStore(s, events))
    && Live(RunStore(s, events), until) == Age(RunView(v, Requests(events)), until)
    && SameButDel(Replies(s, events), ViewReplies(v, Requests(events)), Requests(events))
  }

  lemma {:induction false} RequestStep(s: Store, v: View, events: seq<Event>, until: int)
    requires Consistent(s)
    requires events != [] && events[0].Client?
    requires Live(s, Time(events[0])) == Age(v, Time(events[0]))
    requires
      var s' := StepStore(s, events[0]);
      RefinesView(s', Live(s', Time(events[0])), events[1..], until)
    ensures RefinesView(s, v, events, until)
  {
    var r := events[0].request;
    Refines(s, r.op, r.now);
    if !r.op.Del? { AnswersFromView(s, r.op, r.now); }
    var s', rest := StepStore(s, events[0]), Requests(events[1..]);
    MoreButDel(AnswerTo(s, r.op, r.now), Replies(s', events[1..]), ViewAnswer(Age(v, r.now), r.op, r.now),
               ViewReplies(Live(s', r.now), rest), r, rest);
    RequestsFirst(v, r, rest);
  }

  lemma {:induction false} MoreButDel(a: Answer, as': seq<Answer>, b: Answer, bs: seq<Answer>, r: Request,
                                      requests: seq<Request>)
    requires SameButDel(as', bs, requests) && (r.op.Del? || a == b)
    ensures SameButDel([a] + as', [b] + bs, [r] + requests)
  {
  }

  lemma {:induction false} RequestsFirst(v: View, r: Request, rest: seq<Request>)
    ensures
      var next := ViewApply(Age(v, r.now), r.op, r.now);
      && RunView(v, [r] + rest) == RunView(next, rest)
      && ViewReplies(v, [r] + rest) == [ViewAnswer(Age(v, r.now), r.op, r.now)] + ViewReplies(next, rest)
  {
    assert ([r] + rest)[1..] == rest;
  }

  lemma {:induction false} SweepStep(s: Store, v: View, events: seq<Event>, until: int)
    requires Consistent(s)
    requires events != [] && events[0].Sweep?
    requires Clocked(Time, Time(events[0]), events[1..], until)
    requires Live(s, Time(events[0])) == Age(v, Time(events[0]))
    requires
      var s' := StepStore(s, events[0]);
      RefinesView(s', Live(s', Time(events[0])), events[1..], until)
    ensures RefinesView(s, v, events, until)
  {
    var at := events[0].at;
    PurgeInvisible(s, events[0].sample, at, at);
    ClockedRequests(at, events[1..], until);
    RunViewAged(v, Requests(events), at, until);
  }

  /** Every run of the store, sweeps included, is a run of the live view. */
  lemma {:induction false} RunRefines(s: Store, events: seq<Event>, from: int, until: int)
    requires Consistent(s)
    requires Clocked(Time, from, events, until)
    ensures RefinesView(s, Live(s, from), events, until)
    decreases |events|
  {
    if events == [] {
      LiveAges(s, from, until);
    } else {
      var e := events[0];
      LiveAges(s, from, Time(e));
      match e
      case Client(r) =>
        Refines(s, r.op, r.now);
        RunRefines(StepStore(s, e), events[1..], r.now, until);
        RequestStep(s, Live(s, from), events, until);
      case Sweep(sample, at) =>
        PurgeInvisible(s, sample, at, at);
        RunRefines(StepStore(s, e), events[1..], at, until);
        SweepStep(s, Live(s, from), events, until);
    }
  }

  /** Two stores that look alike, given the same requests at the same times,
      give the same replies and still look alike, whatever each one's sweeps. */
  lemma {:induction false} ExpiryInvisible(s1: Store, s2: Store, run1: seq<Event>, run2: seq<Event>, from: int,
                                           until: int)
    requires Consistent(s1) && Consistent(s2)
    requires Live(s1, from) == Live(s2, from)
    requires Clocked(Time, from, run1, until) && Clocked(Time, from, run2, until)
    requires Requests(run1) == Requests(run2)
    ensures SameButDel(Replies(s1, run1), Replies(s2, run2), Requests(run1))
    ensures Live(RunStore(s1, run1), until) == Live(RunStore(s2, run2), until)
  {
    RunRefines(s1, run1, from, until);
    RunRefines(s2, run2, from, until);
  }
}
