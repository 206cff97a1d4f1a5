/**
 The key space: two value maps and an expiry map, as one value.

 `Apply` and `Answer` say what each operation does to the maps, lazy removal of
 expired keys included.  `ViewApply` and `ViewAnswer` describe the same
 operations on the live view, a plain map from live keys to values and
 deadlines in which expiry does not exist as a mechanism.
 */
module Store {
  import opened Base

  /** Deadlines and clock readings are nanosecond ticks of one steady clock. */
  function SecondsAfter(now: int, seconds: int): (deadline: int)
    ensures deadline <= now <==> seconds <= 0
  {
    now + seconds * 1_000_000_000
  }

  /** Whole seconds from `now` to `deadline`, rounded towards the present. */
  function SecondsLeft(now: int, deadline: int): int {
    (deadline - now) / 1_000_000_000
  }

  datatype Store = Store(
    strings: map<string, string>,
    lists: map<string, seq<string>>,
    expiry: map<string, int>)

  const EMPTY := Store(map[], map[], map[])

  function Stored(s: Store): set<string> {
    s.strings.Keys + s.lists.Keys
  }

  predicate Expired(s: Store, key: string, now: int) {
    key in s.expiry && s.expiry[key] <= now
  }

  function Erase(s: Store, keys: set<string>): Store {
    Store(s.strings - keys, s.lists - keys, s.expiry - keys)
  }

  /** Deletes `keys` by name; a deadline goes only together with a value. */
  function Without(s: Store, keys: set<string>): Store {
    Store(s.strings - keys, s.lists - keys, s.expiry - keys * Stored(s))
  }

  /** Removes from all three maps those of `keys` whose deadline has passed. */
  function Purge(s: Store, keys: set<string>, now: int): Store {
    Erase(s, set k | k in keys && Expired(s, k, now))
  }

  /** No key holds two values, and only stored keys carry a deadline. */
  ghost predicate Consistent(s: Store) {
    s.strings.Keys !! s.lists.Keys && s.expiry.Keys <= Stored(s)
  }

  ghost predicate NoEmptyList(s: Store) {
    forall k :: k in s.lists ==> s.lists[k] != []
  }

  datatype Op =
    | Set(key: string, text: string)
    | Get(key: string)
    | Del(keys: seq<string>)
    | Exists(keys: seq<string>)
    | Keys
    | DbSize
    | FlushDb
    | LPush(key: string, items: seq<string>)
    | RPush(key: string, items: seq<string>)
    | LPop(key: string)
    | RPop(key: string)
    | LRange(key: string, start: int, stop: int)
    | LLen(key: string)
    | LIndex(key: string, index: int)
    | Expire(key: string, seconds: int)
    | Ttl(key: string)
    | Persist(key: string)

  datatype Answer =
    | Done
    | Missing
    | Text(text: string)
    | Count(count: int)
    | Names(names: set<string>)
    | Items(items: seq<string>)
    | Flag(flag: bool)

  // ---------------------------------------------------------------------
  // The operations on the maps
  // ---------------------------------------------------------------------

  function ListAt(s: Store, key: string): seq<string> {
    if key in s.lists then s.lists[key] else []
  }

  /** A list that becomes empty takes its key and its deadline with it. */
  function PutList(s: Store, key: string, list: seq<string>): Store {
    if list == [] then s.(lists := s.lists - {key}, expiry := s.expiry - {key})
    else s.(lists := s.lists[key := list])
  }

  function Apply(s: Store, op: Op, now: int): Store {
    match op
    case Set(k, x) => Store(s.strings[k := x], s.lists - {k}, s.expiry - {k})
    case Get(k) => Purge(s, {k}, now)
    case Del(ks) => Without(s, Elements(ks))
    case Exists(ks) => Purge(s, Elements(ks), now)
    case Keys => Purge(s, Stored(s), now)
    case DbSize => Purge(s, Stored(s), now)
    case FlushDb => EMPTY
    case LPush(k, xs) =>
      var p := Purge(s, {k}, now);
      if k in p.strings then p else p.(lists := p.lists[k := Reverse(xs) + ListAt(p, k)])
    case RPush(k, xs) =>
      var p := Purge(s, {k}, now);
      if k in p.strings then p else p.(lists := p.lists[k := ListAt(p, k) + xs])
    case LPop(k) =>
      var p := Purge(s, {k}, now);
      if k !in p.lists then p
      else PutList(p, k, if p.lists[k] == [] then [] else p.lists[k][1..])
    case RPop(k) =>
      var p := Purge(s, {k}, now);
      if k !in p.lists then p
      else PutList(p, k, if p.lists[k] == [] then [] else p.lists[k][..|p.lists[k]| - 1])
    case LRange(k, _, _) => Purge(s, {k}, now)
    case LLen(k) => Purge(s, {k}, now)
    case LIndex(k, _) => Purge(s, {k}, now)
    case Expire(k, seconds) =>
      if k !in Stored(s) then s
      else if Expired(s, k, now) then Purge(s, {k}, now)
      else s.(expiry := s.expiry[k := SecondsAfter(now, seconds)])
    case Ttl(k) => if k in Stored(s) then Purge(s, {k}, now) else s
    case Persist(k) =>
      if k !in Stored(s) then s
      else if Expired(s, k, now) then Purge(s, {k}, now)
      else s.(expiry := s.expiry - {k})
  }

  /** How many positions of `keys` name a member of `present`. */
  function Hits(keys: seq<string>, present: set<string>): (n: nat)
    ensures n <= |keys|
  {
    if keys == [] then 0
    else (if keys[0] in present then 1 else 0) + Hits(keys[1..], present)
  }

  /** The reference slice: negative positions count from the end, both ends inclusive. */
  function Slice<T>(list: seq<T>, start: int, stop: int): (r: seq<T>)
    ensures |r| <= |list|
  {
    var lo := if start < 0 then start + |list| else start;
    var hi := if stop < 0 then stop + |list| else stop;
    var from := if lo < 0 then 0 else lo;
    var upto := if hi >= |list| then |list| else hi + 1;
    if from < upto then list[from..upto] else []
  }

  function Nth<T>(list: seq<T>, index: int): Option<T> {
    var i := if index < 0 then index + |list| else index;
    if 0 <= i < |list| then Some(list[i]) else None
  }

  function TextOrMissing(x: Option<string>): Answer {
    if x.Some? then Text(x.value) else Missing
  }

  function LiveStrings(s: Store, now: int): set<string> {
    set k | k in s.strings && !Expired(s, k, now)
  }

  function LiveLists(s: Store, now: int): set<string> {
    set k | k in s.lists && !Expired(s, k, now)
  }

  function AnswerTo(s: Store, op: Op, now: int): Answer {
    match op
    case Set(_, _) => Done
    case Get(k) => if k in LiveStrings(s, now) then Text(s.strings[k]) else Missing
    case Del(ks) => Count(|Elements(ks) * Stored(s)|)
    case Exists(ks) => Count(Hits(ks, LiveStrings(s, now) + LiveLists(s, now)))
    case Keys => Names(LiveStrings(s, now) + LiveLists(s, now))
    case DbSize => Count(|LiveStrings(s, now)| + |LiveLists(s, now)|)
    case FlushDb => Done
    case LPush(k, xs) =>
      if k in LiveStrings(s, now) then Count(-1) else Count(|ListAt(Purge(s, {k}, now), k)| + |xs|)
    case RPush(k, xs) =>
      if k in LiveStrings(s, now) then Count(-1) else Count(|ListAt(Purge(s, {k}, now), k)| + |xs|)
    case LPop(k) => TextOrMissing(Nth(ListAt(Purge(s, {k}, now), k), 0))
    case RPop(k) => TextOrMissing(Nth(ListAt(Purge(s, {k}, now), k), -1))
    case LRange(k, start, stop) => Items(Slice(ListAt(Purge(s, {k}, now), k), start, stop))
    case LLen(k) =>
      if k in LiveStrings(s, now) then Count(-1) else Count(|ListAt(Purge(s, {k}, now), k)|)
    case LIndex(k, i) => TextOrMissing(Nth(ListAt(Purge(s, {k}, now), k), i))
    case Expire(k, _) => Flag(k in Stored(s) && !Expired(s, k, now))
    case Ttl(k) =>
      if k !in Stored(s) || Expired(s, k, now) then Count(-2)
      else if k !in s.expiry then Count(-1)
      else Count(SecondsLeft(now, s.expiry[k]))
    case Persist(k) => Flag(k in Stored(s) && !Expired(s, k, now) && k in s.expiry)
  }

  // ---------------------------------------------------------------------
  // The live view
  // ---------------------------------------------------------------------

  datatype Value = Str(text: string) | Lst(items: seq<string>)
  datatype Entry = Entry(value: Value, deadline: Option<int>)
  type View = map<string, Entry>

  function EntryOf(s: Store, key: string): Entry
    requires key in Stored(s)
  {
    Entry(
      if key in s.strings then Str(s.strings[key]) else Lst(s.lists[key]),
      if key in s.expiry then Some(s.expiry[key]) else None)
  }

  function Live(s: Store, now: int): View {
    map k | k in Stored(s) && !Expired(s, k, now) :: EntryOf(s, k)
  }

  function Lookup(v: View, key: string): Option<Entry> {
    if key in v then Some(v[key]) else None
  }

  /** The entry that a client sees under one key. */
  function EntryAt(s: Store, key: string, now: int): Option<Entry> {
    if key in Stored(s) && !Expired(s, key, now) then Some(EntryOf(s, key)) else None
  }

  predicate Alive(e: Entry, now: int) {
    e.deadline.None? || e.deadline.value > now
  }

  /** What is left of a view when the clock reads `now`. */
  function Age(v: View, now: int): View {
    map k | k in v && Alive(v[k], now) :: v[k]
  }

  function ItemsAt(v: View, key: string): seq<string> {
    if key in v && v[key].value.Lst? then v[key].value.items else []
  }

  predicate HoldsString(v: View, key: string) {
    key in v && v[key].value.Str?
  }

  /** Replaces the list under `key`; a key that comes into being has no deadline. */
  function WithItems(v: View, key: string, items: seq<string>): View {
    v[key := Entry(Lst(items), if key in v then v[key].deadline else None)]
  }

  function ViewApply(v: View, op: Op, now: int): View {
    match op
    case Set(k, x) => v[k := Entry(Str(x), None)]
    case Del(ks) => v - Elements(ks)
    case FlushDb => map[]
    case LPush(k, xs) => if HoldsString(v, k) then v else WithItems(v, k, Reverse(xs) + ItemsAt(v, k))
    case RPush(k, xs) => if HoldsString(v, k) then v else WithItems(v, k, ItemsAt(v, k) + xs)
    case LPop(k) =>
      if k !in v || HoldsString(v, k) then v
      else if |ItemsAt(v, k)| <= 1 then v - {k}
      else WithItems(v, k, ItemsAt(v, k)[1..])
    case RPop(k) =>
      if k !in v || HoldsString(v, k) then v
      else if |ItemsAt(v, k)| <= 1 then v - {k}
      else WithItems(v, k, ItemsAt(v, k)[..|ItemsAt(v, k)| - 1])
    case Expire(k, seconds) =>
      if k !in v then v
      else if seconds <= 0 then v - {k}
      else v[k := v[k].(deadline := Some(SecondsAfter(now, seconds)))]
    case Persist(k) => if k in v then v[k := v[k].(deadline := None)] else v
    case _ => v
  }

  function ViewAnswer(v: View, op: Op, now: int): Answer {
    match op
    case Set(_, _) => Done
    case FlushDb => Done
    case Get(k) => if HoldsString(v, k) then Text(v[k].value.text) else Missing
    case Del(ks) => Count(|Elements(ks) * v.Keys|)
    case Exists(ks) => Count(Hits(ks, v.Keys))
    case Keys => Names(v.Keys)
    case DbSize => Count(|v|)
    case LPush(k, xs) => if HoldsString(v, k) then Count(-1) else Count(|xs| + |ItemsAt(v, k)|)
    case RPush(k, xs) => if HoldsString(v, k) then Count(-1) else Count(|xs| + |ItemsAt(v, k)|)
    case LPop(k) => if ItemsAt(v, k) == [] then Missing else Text(ItemsAt(v, k)[0])
    case RPop(k) => if ItemsAt(v, k) == [] then Missing else Text(ItemsAt(v, k)[|ItemsAt(v, k)| - 1])
    case LRange(k, start, stop) => Items(Slice(ItemsAt(v, k), start, stop))
    case LLen(k) => if HoldsString(v, k) then Count(-1) else Count(|ItemsAt(v, k)|)
    case LIndex(k, i) => TextOrMissing(Nth(ItemsAt(v, k), i))
    case Expire(k, _) => Flag(k in v)
    case Ttl(k) =>
      if k !in v then Count(-2)
      else if v[k].deadline.None? then Count(-1)
      else Count(SecondsLeft(now, v[k].deadline.value))
    case Persist(k) => Flag(k in v && v[k].deadline.Some?)
  }
}
