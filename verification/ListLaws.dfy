/** What the list commands mean together, and what every run keeps of the store. */
module ListLaws {
  import opened Base
  import opened Store
  import opened Expiry

  // ---------------------------------------------------------------------
  // The store invariant over runs
  // ---------------------------------------------------------------------

  ghost predicate Invariant(s: Store) {
    Consistent(s) && NoEmptyList(s)
  }

  /** The command handler never pushes an empty list of values. */
  predicate Pushes(op: Op) {
    (op.LPush? || op.RPush?) ==> op.items != []
  }

  lemma {:induction false} StepKeepsLists(s: Store, op: Op, now: int)
    requires NoEmptyList(s) && Pushes(op)
    ensures NoEmptyList(Apply(s, op, now))
  {
    if !op.Del? && !op.Exists? && !op.Keys? && !op.DbSize? && !op.FlushDb? {
      PurgeKeepsLists(s, {op.key}, now);
    } else if op.Exists? {
      PurgeKeepsLists(s, Elements(op.keys), now);
    } else {
      PurgeKeepsLists(s, Stored(s), now);
    }
  }

  /** No run of commands and sweeps puts a key in both maps, leaves a deadline
      without a value, or leaves an empty list behind. */
  lemma {:induction false} RunKeepsInvariant(s: Store, events: seq<Event>)
    requires Invariant(s)
    requires forall i :: 0 <= i < |events| && events[i].Client? ==> Pushes(events[i].request.op)
    ensures Invariant(RunStore(s, events))
    decreases |events|
  {
    if events == [] {
    } else {
      match events[0] {
        case Client(r) =>
          assert Pushes(events[0].request.op);
          Refines(s, r.op, r.now);
          StepKeepsLists(s, r.op, r.now);
        case Sweep(sample, at) =>
          PurgeInvisible(s, sample, at, at);
          PurgeKeepsLists(s, sample, at);
      }
      RunKeepsInvariant(StepStore(s, events[0]), events[1..]);
    }
  }

  // ---------------------------------------------------------------------
  // Queues
  // ---------------------------------------------------------------------

  function Pop(key: string, left: bool): Op {
    if left then LPop(key) else RPop(key)
  }

  function Pops(key: string, left: bool, times: seq<int>): (r: seq<Request>)
    ensures |r| == |times|
    ensures forall i :: 0 <= i < |r| ==> !r[i].op.Del?
  {
    if times == [] then [] else [Request(Pop(key, left), times[0])] + Pops(key, left, times[1..])
  }

  function Texts(items: seq<string>): seq<Answer> {
    if items == [] then [] else [Text(items[0])] + Texts(items[1..])
  }

  lemma {:induction false} ReverseLast<T>(xs: seq<T>)
    requires xs != []
    ensures Reverse(xs) == [xs[|xs| - 1]] + Reverse(xs[..|xs| - 1])
  {
    assert xs == xs[..|xs| - 1] + [xs[|xs| - 1]];
    ReverseSnoc(xs[..|xs| - 1], xs[|xs| - 1]);
  }

  lemma {:induction false} PopOne(v: View, key: string, list: seq<string>, left: bool, now: int)
    requires key in v && v[key] == Entry(Lst(list), None) && list != []
    ensures
      var at := Age(v, now);
      var rest := Rest(list, left);
      && ViewAnswer(at, Pop(key, left), now) == Text(if left then list[0] else list[|list| - 1])
      && ViewApply(at, Pop(key, left), now) ==
           (if rest == [] then Age(v, now) - {key} else Age(v, now)[key := Entry(Lst(rest), None)])
  {
    assert key in Age(v, now) && Age(v, now)[key] == v[key];
  }

  lemma {:induction false} PushLeft(v: View, key: string, items: seq<string>, now: int)
    requires key !in v
    ensures ViewAnswer(v, LPush(key, items), now) == Count(|items|)
    ensures ViewApply(v, LPush(key, items), now) == v[key := Entry(Lst(Reverse(items)), None)]
  {
    assert Reverse(items) + ItemsAt(v, key) == Reverse(items);
  }

  lemma {:induction false} PushRight(v: View, key: string, items: seq<string>, now: int)
    requires key !in v
    ensures ViewAnswer(v, RPush(key, items), now) == Count(|items|)
    ensures ViewApply(v, RPush(key, items), now) == v[key := Entry(Lst(items), None)]
  {
    assert ItemsAt(v, key) + items == items;
  }

  /** The order in which a list comes out at one end, and what one pop leaves. */
  function Out<T>(list: seq<T>, left: bool): seq<T> {
    if left then list else Reverse(list)
  }

  function Rest<T>(list: seq<T>, left: bool): seq<T>
    requires list != []
  {
    if left then list[1..] else list[..|list| - 1]
  }

  lemma {:induction false} OutFirst<T>(list: seq<T>, left: bool)
    requires list != []
    ensures Out(list, left) == [if left then list[0] else list[|list| - 1]] + Out(Rest(list, left), left)
  {
    if !left { ReverseLast(list); }
  }

  lemma {:induction false} PopStep(v: View, key: string, list: seq<string>, left: bool, now: int, until: int)
    requires key in v && v[key] == Entry(Lst(list), None) && list != [] && now <= until
    ensures
      var next := ViewApply(Age(v, now), Pop(key, left), now);
      && (Rest(list, left) == [] ==> next - {key} == next)
      && (Rest(list, left) != [] ==> key in next && next[key] == Entry(Lst(Rest(list, left)), None))
      && Age(next - {key}, until) == Age(v - {key}, until)
  {
    PopOne(v, key, list, left, now);
    var next := ViewApply(Age(v, now), Pop(key, left), now);
    assert next - {key} == Age(v, now) - {key};
    AgedRemoval(v, next, key, now, until);
    if Rest(list, left) == [] {
      assert next - {key} == next;
    }
  }

  lemma {:induction false} TextsFirst(x: string, items: seq<string>)
    ensures Texts([x] + items) == [Text(x)] + Texts(items)
  {
    assert ([x] + items)[1..] == items;
  }

  /** Popping a list that has no deadline empties it, end by end, and then removes the key. */
  lemma {:induction false} PopAll(v: View, key: string, list: seq<string>, left: bool, times: seq<int>, until: int)
    requires key in v && v[key] == Entry(Lst(list), None)
    requires |times| == |list| > 0
    requires forall i, j :: 0 <= i < j < |times| ==> times[i] <= times[j]
    requires forall i :: 0 <= i < |times| ==> times[i] <= until
    ensures ViewReplies(v, Pops(key, left, times)) == Texts(Out(list, left))
    ensures Age(RunView(v, Pops(key, left, times)), until) == Age(v - {key}, until)
    decreases |list|
  {
    var now := times[0];
    var next := ViewApply(Age(v, now), Pop(key, left), now);
    PopOne(v, key, list, left, now);
    PopStep(v, key, list, left, now, until);
    ViewStep(v, Pop(key, left), now, Pops(key, left, times[1..]));
    OutFirst(list, left);
    TextsFirst(if left then list[0] else list[|list| - 1], Out(Rest(list, left), left));
    if Rest(list, left) == [] {
    } else {
      PopAll(next, key, Rest(list, left), left, times[1..], until);
    }
  }

  lemma {:induction false} ViewStep(v: View, op: Op, now: int, rest: seq<Request>)
    ensures
      var requests := [Request(op, now)] + rest;
      && ViewReplies(v, requests) ==
           [ViewAnswer(Age(v, now), op, now)] + ViewReplies(ViewApply(Age(v, now), op, now), rest)
      && RunView(v, requests) == RunView(ViewApply(Age(v, now), op, now), rest)
  {
    assert ([Request(op, now)] + rest)[1..] == rest;
  }

  lemma {:induction false} AgedRemoval(v: View, next: View, key: string, now: int, until: int)
    requires now <= until
    requires next - {key} == Age(v, now) - {key}
    ensures Age(next - {key}, until) == Age(v - {key}, until)
  {
    AgeTwice(v, now, until);
    assert Age(Age(v, now) - {key}, until) == Age(v - {key}, until);
  }

  /** A push that puts `list` under a new key, followed by as many pops. */
  lemma {:induction false} PushThenPops(v: View, push: Op, key: string, list: seq<string>, left: bool,
                     start: int, times: seq<int>, until: int)
    requires list != [] && |times| == |list| && key !in v && Age(v, start) == v && start <= until
    requires ViewApply(v, push, start) == v[key := Entry(Lst(list), None)]
    requires forall i, j :: 0 <= i < j < |times| ==> times[i] <= times[j]
    requires forall i :: 0 <= i < |times| ==> times[i] <= until
    ensures
      var requests := [Request(push, start)] + Pops(key, left, times);
      && ViewReplies(v, requests) == [ViewAnswer(v, push, start)] + Texts(Out(list, left))
      && Age(RunView(v, requests), until) == Age(v, until)
  {
    ViewStep(v, push, start, Pops(key, left, times));
    var next := v[key := Entry(Lst(list), None)];
    PopAll(next, key, list, left, times, until);
    assert next - {key} == v;
  }

  /** Pushing values at one end and popping as many from the other end returns
      them in order, and leaves the store looking as it did before. */
  lemma {:induction false} QueueLaw(s: Store, key: string, items: seq<string>, left: bool,
                 run: seq<Event>, from: int, start: int, times: seq<int>, until: int)
    requires Consistent(s) && Clocked(Time, from, run, until)
    requires items != [] && key !in Live(s, start) && from <= start
    requires |times| == |items|
    requires forall i, j :: 0 <= i < j < |times| ==> times[i] <= times[j]
    requires forall i :: 0 <= i < |times| ==> start <= times[i] <= until
    requires Requests(run) ==
             [Request(if left then RPush(key, items) else LPush(key, items), start)] + Pops(key, left, times)
    ensures Replies(s, run) == [Count(|items|)] + Texts(items)
    ensures Live(RunStore(s, run), until) == Live(s, until)
  {
    var v := Live(s, start);
    assert start <= times[0] <= until;
    RunRefines(s, run, from, until);
    LiveAges(s, from, start);
    LiveAges(s, start, start);
    LiveAges(s, start, until);
    RunViewAged(Live(s, from), Requests(run), start, until);
    if left {
      PushRight(v, key, items, start);
      PushThenPops(v, RPush(key, items), key, items, left, start, times, until);
    } else {
      PushLeft(v, key, items, start);
      ReverseTwice(items);
      PushThenPops(v, LPush(key, items), key, Reverse(items), left, start, times, until);
    }
    assert forall i :: 0 <= i < |Requests(run)| ==> !Requests(run)[i].op.Del?;
    NoDel(Replies(s, run), ViewReplies(Live(s, from), Requests(run)), Requests(run));
  }

  lemma {:induction false} NoDel(a: seq<Answer>, b: seq<Answer>, requests: seq<Request>)
    requires SameButDel(a, b, requests)
    requires forall i :: 0 <= i < |requests| ==> !requests[i].op.Del?
    ensures a == b
  {
  }

  // ---------------------------------------------------------------------
  // Ranges
  // ---------------------------------------------------------------------

  /** A position given by a client: negative ones count from the end. */
  function Position(len: nat, index: int): int {
    if index < 0 then len + index else index
  }

  predicate Between(len: nat, start: int, stop: int, i: int) {
    Position(len, start) <= i <= Position(len, stop)
  }

  /** `r` is the stretch of `list` from `lo` on, it holds exactly the positions
      from `start` to `stop`, and indexing finds each of its elements. */
  ghost predicate Covers<T>(list: seq<T>, start: int, stop: int, r: seq<T>, lo: nat) {
    && lo + |r| <= |list| && r == list[lo..lo + |r|]
    && (forall i :: 0 <= i < |list| ==> (Between(|list|, start, stop, i) <==> lo <= i < lo + |r|))
    && (forall j :: 0 <= j < |r| ==> Nth(list, lo + j) == Some(r[j]))
  }

  lemma {:induction false} SliceCovers<T>(list: seq<T>, start: int, stop: int)
    ensures exists lo: nat :: Covers(list, start, stop, Slice(list, start, stop), lo)
  {
    var from := Position(|list|, start);
    var r := Slice(list, start, stop);
    var lo := if from < 0 || r == [] then 0 else from;
    assert lo + |r| <= |list|;
    assert r == list[lo..lo + |r|];
    forall i | 0 <= i < |list|
      ensures Between(|list|, start, stop, i) <==> lo <= i < lo + |r|
    {
    }
    forall j | 0 <= j < |r|
      ensures Nth(list, lo + j) == Some(r[j])
    {
      assert r[j] == list[lo + j];
    }
    assert Covers(list, start, stop, r, lo);
  }

  // ---------------------------------------------------------------------
  // Positions and counts in plain terms
  // ---------------------------------------------------------------------

  /** The list a client finds under a key. */
  ghost predicate IsList(s: Store, k: string, xs: seq<string>, now: int) {
    k in Live(s, now) && Live(s, now)[k].value == Lst(xs)
  }

  /** LINDEX finds a position from the front, or one counted back from the end, and nothing elsewhere. */
  lemma {:induction false} IndexExactly(s: Store, k: string, xs: seq<string>, i: int, now: int)
    requires Consistent(s) && IsList(s, k, xs, now)
    ensures 0 <= i < |xs| ==> AnswerTo(s, LIndex(k, i), now) == Text(xs[i])
    ensures -|xs| <= i < 0 ==> AnswerTo(s, LIndex(k, i), now) == Text(xs[|xs| + i])
    ensures i < -|xs| || |xs| <= i ==> AnswerTo(s, LIndex(k, i), now) == Missing
  {
    PurgedListAt(s, k, now);
  }

  /** LRANGE of two positions from the front, or of two counted back from the end, is what stands between them. */
  lemma {:induction false} RangeExactly(s: Store, k: string, xs: seq<string>, i: nat, j: nat, now: int)
    requires Consistent(s) && IsList(s, k, xs, now) && i <= j < |xs|
    ensures AnswerTo(s, LRange(k, i, j), now) == Items(xs[i..j + 1])
    ensures AnswerTo(s, LRange(k, i - |xs|, j - |xs|), now) == Items(xs[i..j + 1])
    ensures forall over :: |xs| <= over ==> AnswerTo(s, LRange(k, i, over), now) == Items(xs[i..])
    ensures forall under :: under < -|xs| ==> AnswerTo(s, LRange(k, under, j), now) == Items(xs[..j + 1])
    ensures i < j ==> AnswerTo(s, LRange(k, j, i), now) == Items([])
  {
    PurgedListAt(s, k, now);
  }

  lemma {:induction false} HitsConcat(a: seq<string>, b: seq<string>, present: set<string>)
    ensures Hits(a + b, present) == Hits(a, present) + Hits(b, present)
    decreases |a|
  {
    if a == [] {
      assert a + b == b;
    } else {
      assert (a + b)[1..] == a[1..] + b;
      HitsConcat(a[1..], b, present);
    }
  }

  lemma {:induction false} ExistsHits(s: Store, keys: seq<string>, now: int)
    ensures AnswerTo(s, Exists(keys), now) == Count(Hits(keys, Live(s, now).Keys))
  {
    LiveKeys(s, now);
  }

  lemma {:induction false} HitsOne(k: string, present: set<string>)
    ensures Hits([k], present) == (if k in present then 1 else 0) && Hits([], present) == 0
  {
    assert [k][1..] == [];
  }

  /** EXISTS counts 1 for a live key and 0 for another, and adds up, so that a key named twice counts twice. */
  lemma {:induction false} ExistsExactly(s: Store, k: string, a: seq<string>, b: seq<string>, now: int)
    ensures AnswerTo(s, Exists([]), now) == Count(0)
    ensures AnswerTo(s, Exists([k]), now) == Count(if k in Live(s, now) then 1 else 0)
    ensures AnswerTo(s, Exists(a + b), now).count
            == AnswerTo(s, Exists(a), now).count + AnswerTo(s, Exists(b), now).count
  {
    var present := Live(s, now).Keys;
    ExistsHits(s, [], now);
    ExistsHits(s, [k], now);
    ExistsHits(s, a, now);
    ExistsHits(s, b, now);
    ExistsHits(s, a + b, now);
    HitsOne(k, present);
    HitsConcat(a, b, present);
  }
}
