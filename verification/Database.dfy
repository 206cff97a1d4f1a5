/**
 The `Database` object: three maps updated in place under one lock.

 Every method takes the clock reading of its critical section as `now` and is
 proved against `Store.Apply` and `Store.AnswerTo`, of which `Expiry` proves
 what a client can see.  Iteration over a hash map is in arbitrary order.
 */
module Database {
  import opened Base
  import opened Store

  const MAX_SAMPLE := 20

  predicate Int32(x: int) {
    -0x8000_0000 <= x < 0x8000_0000
  }

  class Database {
    var store: map<string, string>
    var listStore: map<string, seq<string>>
    var expiry: map<string, int>

    ghost function State(): Store
      reads this
    {
      Store(store, listStore, expiry)
    }

    constructor ()
      ensures State() == EMPTY
    {
      store, listStore, expiry := map[], map[], map[];
    }

    function KeyExists(key: string): bool
      reads this
    {
      key in store || key in listStore
    }

    function IsExpired(key: string, now: int): bool
      reads this
    {
      key in expiry && expiry[key] <= now
    }

    method RemoveExpired(key: string)
      modifies this
      ensures State() == Erase(old(State()), {key})
    {
      store := store - {key};
      listStore := listStore - {key};
      expiry := expiry - {key};
    }

    /** The lazy check that opens most commands. */
    method ExpireLazily(key: string, now: int) returns (expired: bool)
      modifies this
      ensures expired == Expired(old(State()), key, now)
      ensures State() == Purge(old(State()), {key}, now)
    {
      expired := IsExpired(key, now);
      if expired {
        RemoveExpired(key);
        assert (set k | k in {key} && Expired(old(State()), k, now)) == {key};
      } else {
        assert (set k | k in {key} && Expired(old(State()), k, now)) == {};
        assert State() == Erase(State(), {});
      }
    }

    method Set(key: string, value: string, now: int)
      modifies this
      ensures State() == Apply(old(State()), Op.Set(key, value), now)
    {
      listStore := listStore - {key};
      store := store[key := value];
      expiry := expiry - {key};
    }

    method Get(key: string, now: int) returns (value: Option<string>)
      modifies this
      ensures State() == Apply(old(State()), Op.Get(key), now)
      ensures TextOrMissing(value) == AnswerTo(old(State()), Op.Get(key), now)
    {
      var expired := ExpireLazily(key, now);
      if expired { return None; }
      if key !in store { return None; }
      return Some(store[key]);
    }

    method DelOne(key: string) returns (removed: bool)
      modifies this
      ensures State() == Without(old(State()), {key})
      ensures removed == (key in Stored(old(State())))
    {
      removed := KeyExists(key);
      store := store - {key};
      listStore := listStore - {key};
      if removed {
        expiry := expiry - {key};
      }
    }

    method DelEach(keys: seq<string>) returns (count: nat)
      modifies this
      ensures State() == Without(old(State()), Elements(keys))
      ensures count == |Elements(keys) * Stored(old(State()))|
    {
      ghost var s := State();
      count := 0;
      DelNone(s, FirstOf(keys, 0));
      for i := 0 to |keys|
        invariant State() == Without(s, FirstOf(keys, i))
        invariant count == |FirstOf(keys, i) * Stored(s)|
      {
        DelMore(s, FirstOf(keys, i), keys[i]);
        var removed := DelOne(keys[i]);
        if removed {
          count := count + 1;
        }
      }
      FirstOfIs(keys, |keys|);
      assert keys[..|keys|] == keys;
    }

    method Del(keys: seq<string>, now: int) returns (count: nat)
      modifies this
      ensures State() == Apply(old(State()), Op.Del(keys), now)
      ensures Count(count) == AnswerTo(old(State()), Op.Del(keys), now)
    {
      count := DelEach(keys);
    }

    /** Whether a key is there, once its deadline has been looked at. */
    method ExistsOne(key: string, now: int) returns (there: bool)
      modifies this
      ensures State() == Purge(old(State()), {key}, now)
      ensures there == (key in LiveStrings(old(State()), now) + LiveLists(old(State()), now))
    {
      var expired := ExpireLazily(key, now);
      if expired { return false; }
      return KeyExists(key);
    }

    method Exists(keys: seq<string>, now: int) returns (count: nat)
      modifies this
      ensures State() == Apply(old(State()), Op.Exists(keys), now)
      ensures Count(count) == AnswerTo(old(State()), Op.Exists(keys), now)
    {
      ghost var s := State();
      ghost var live := LiveStrings(s, now) + LiveLists(s, now);
      count := 0;
      PurgeNone(s, now);
      for i := 0 to |keys|
        invariant State() == Purge(s, Elements(keys[..i]), now)
        invariant count + Hits(keys[i..], live) == Hits(keys, live)
      {
        ElementsUpTo(keys, i);
        assert keys[i..][1..] == keys[i + 1..];
        PurgeMore(s, Elements(keys[..i]), keys[i], now);
        LivePurged(s, Elements(keys[..i]), keys[i], now);
        var there := ExistsOne(keys[i], now);
        if there {
          count := count + 1;
        }
      }
      assert keys[..|keys|] == keys;
    }

    method Keys(now: int) returns (result: seq<string>)
      modifies this
      ensures State() == Apply(old(State()), Op.Keys, now)
      ensures Names(Elements(result)) == AnswerTo(old(State()), Op.Keys, now)
      ensures |result| == |LiveStrings(old(State()), now)| + |LiveLists(old(State()), now)|
    {
      ghost var s := State();
      var expired1, live1 := Partition(store.Keys, expiry, now);
      var expired2, live2 := Partition(listStore.Keys, expiry, now);
      result := live1 + live2;
      RemoveAll(expired1 + expired2);
      Partitioned(s, expired1, live1, expired2, live2, now);
      ElementsConcat(live1, live2);
    }

    method DbSize(now: int) returns (count: nat)
      modifies this
      ensures State() == Apply(old(State()), Op.DbSize, now)
      ensures Count(count) == AnswerTo(old(State()), Op.DbSize, now)
    {
      ghost var s := State();
      var expired1, live1 := Partition(store.Keys, expiry, now);
      var expired2, live2 := Partition(listStore.Keys, expiry, now);
      count := |live1| + |live2|;
      RemoveAll(expired1 + expired2);
      Partitioned(s, expired1, live1, expired2, live2, now);
    }

    /** One pass over the keys of a map, in whatever order the map yields them. */
    static method Partition(keys: set<string>, deadlines: map<string, int>, now: int)
      returns (expired: seq<string>, live: seq<string>)
      ensures forall k :: k in expired <==> k in keys && k in deadlines && deadlines[k] <= now
      ensures forall k :: k in live <==> k in keys && !(k in deadlines && deadlines[k] <= now)
      ensures |live| == |Elements(live)|
    {
      expired, live := [], [];
      var todo := keys;
      while todo != {}
        invariant todo <= keys
        invariant forall k :: k in expired <==> k in keys - todo && k in deadlines && deadlines[k] <= now
        invariant forall k :: k in live <==> k in keys - todo && !(k in deadlines && deadlines[k] <= now)
        invariant |live| == |Elements(live)|
        decreases |todo|
      {
        var key :| key in todo;
        if key in deadlines && deadlines[key] <= now {
          expired := expired + [key];
        } else {
          ElementsSnoc(live, key);
          live := live + [key];
        }
        todo := todo - {key};
      }
    }

    method RemoveAll(keys: seq<string>)
      modifies this
      ensures State() == Erase(old(State()), Elements(keys))
    {
      for i := 0 to |keys|
        invariant State() == Erase(old(State()), Elements(keys[..i]))
      {
        ElementsUpTo(keys, i);
        RemoveExpired(keys[i]);
      }
      assert keys[..|keys|] == keys;
    }

    method FlushDb(now: int)
      modifies this
      ensures State() == Apply(old(State()), Op.FlushDb, now)
    {
      store, listStore, expiry := map[], map[], map[];
    }

    method LPush(key: string, values: seq<string>, now: int) returns (size: int)
      modifies this
      ensures State() == Apply(old(State()), Op.LPush(key, values), now)
      ensures Count(size) == AnswerTo(old(State()), Op.LPush(key, values), now)
    {
      var _ := ExpireLazily(key, now);
      if key in store { return -1; }
      var list := if key in listStore then listStore[key] else [];
      list := PushFront(list, values);
      listStore := listStore[key := list];
      return |list|;
    }

    static method PushFront(list: seq<string>, values: seq<string>) returns (result: seq<string>)
      ensures result == Reverse(values) + list
    {
      result := list;
      for i := 0 to |values|
        invariant result == Reverse(values[..i]) + list
      {
        ReverseSnoc(values[..i], values[i]);
        assert values[..i + 1] == values[..i] + [values[i]];
        result := [values[i]] + result;
      }
      assert values[..|values|] == values;
    }

    method RPush(key: string, values: seq<string>, now: int) returns (size: int)
      modifies this
      ensures State() == Apply(old(State()), Op.RPush(key, values), now)
      ensures Count(size) == AnswerTo(old(State()), Op.RPush(key, values), now)
    {
      var _ := ExpireLazily(key, now);
      if key in store { return -1; }
      var list := if key in listStore then listStore[key] else [];
      list := PushBack(list, values);
      listStore := listStore[key := list];
      return |list|;
    }

    static method PushBack(list: seq<string>, values: seq<string>) returns (result: seq<string>)
      ensures result == list + values
    {
      result := list;
      for i := 0 to |values|
        invariant result == list + values[..i]
      {
        result := result + [values[i]];
      }
    }

    method LPop(key: string, now: int) returns (value: Option<string>)
      modifies this
      ensures State() == Apply(old(State()), Op.LPop(key), now)
      ensures TextOrMissing(value) == AnswerTo(old(State()), Op.LPop(key), now)
    {
      var expired := ExpireLazily(key, now);
      if expired { return None; }
      if key !in listStore { return None; }
      var list := listStore[key];
      if list == [] {
        DropList(key);
        return None;
      }
      value := Some(list[0]);
      listStore := listStore[key := list[1..]];
      if list[1..] == [] {
        DropList(key);
      }
    }

    method RPop(key: string, now: int) returns (value: Option<string>)
      modifies this
      ensures State() == Apply(old(State()), Op.RPop(key), now)
      ensures TextOrMissing(value) == AnswerTo(old(State()), Op.RPop(key), now)
    {
      var expired := ExpireLazily(key, now);
      if expired { return None; }
      if key !in listStore { return None; }
      var list := listStore[key];
      if list == [] {
        DropList(key);
        return None;
      }
      value := Some(list[|list| - 1]);
      listStore := listStore[key := list[..|list| - 1]];
      if list[..|list| - 1] == [] {
        DropList(key);
      }
    }

    method DropList(key: string)
      modifies this
      ensures State() == PutList(old(State()), key, [])
    {
      listStore := listStore - {key};
      expiry := expiry - {key};
    }

    method LRange(key: string, start: int, stop: int, now: int) returns (result: seq<string>)
      modifies this
      ensures State() == Apply(old(State()), Op.LRange(key, start, stop), now)
      ensures Items(result) == AnswerTo(old(State()), Op.LRange(key, start, stop), now)
    {
      var expired := ExpireLazily(key, now);
      if expired { return []; }
      if key !in listStore { return []; }
      ghost var computed;
      result, computed := CopyRange(listStore[key], start, stop);
    }

    /** `computed` lists every value of the index arithmetic, which the code does on 32 bits. */
    static method CopyRange(list: seq<string>, start: int, stop: int)
      returns (result: seq<string>, ghost computed: seq<int>)
      ensures result == Slice(list, start, stop)
      ensures Int32(|list|) && Int32(start) && Int32(stop) ==> forall k :: 0 <= k < |computed| ==> Int32(computed[k])
    {
      var len := |list|;
      var lo := if start < 0 then len + start else start;
      var hi := if stop < 0 then len + stop else stop;
      computed := [len, lo, hi];
      if lo < 0 { lo := 0; }
      if hi >= len { hi := len - 1; }
      computed := computed + [lo, hi];
      if lo > hi || lo >= len { return [], computed; }
      computed := computed + [hi - lo + 1];
      result := [];
      var i := lo;
      while i <= hi
        invariant lo <= i <= hi + 1 <= len
        invariant result == list[lo..i]
        invariant Int32(len) && Int32(start) && Int32(stop) ==> forall k :: 0 <= k < |computed| ==> Int32(computed[k])
      {
        result := result + [list[i]];
        i := i + 1;
        computed := computed + [i];
      }
    }

    method LLen(key: string, now: int) returns (size: int)
      modifies this
      ensures State() == Apply(old(State()), Op.LLen(key), now)
      ensures Count(size) == AnswerTo(old(State()), Op.LLen(key), now)
    {
      var expired := ExpireLazily(key, now);
      if expired { return 0; }
      if key in store { return -1; }
      if key !in listStore { return 0; }
      return |listStore[key]|;
    }

    method LIndex(key: string, index: int, now: int) returns (value: Option<string>)
      modifies this
      ensures State() == Apply(old(State()), Op.LIndex(key, index), now)
      ensures TextOrMissing(value) == AnswerTo(old(State()), Op.LIndex(key, index), now)
    {
      var expired := ExpireLazily(key, now);
      if expired { return None; }
      if key !in listStore { return None; }
      var list := listStore[key];
      var i := if index < 0 then |list| + index else index;
      if i < 0 || i >= |list| { return None; }
      return Some(list[i]);
    }

    method Expire(key: string, seconds: int, now: int) returns (set': bool)
      modifies this
      ensures State() == Apply(old(State()), Op.Expire(key, seconds), now)
      ensures Flag(set') == AnswerTo(old(State()), Op.Expire(key, seconds), now)
    {
      if !KeyExists(key) { return false; }
      var expired := ExpireLazily(key, now);
      if expired { return false; }
      assert State() == old(State());
      expiry := expiry[key := SecondsAfter(now, seconds)];
      return true;
    }

    method Ttl(key: string, now: int) returns (seconds: int)
      modifies this
      ensures State() == Apply(old(State()), Op.Ttl(key), now)
      ensures Count(seconds) == AnswerTo(old(State()), Op.Ttl(key), now)
    {
      if !KeyExists(key) { return -2; }
      var expired := ExpireLazily(key, now);
      if expired { return -2; }
      if key !in expiry { return -1; }
      return SecondsLeft(now, expiry[key]);
    }

    method Persist(key: string, now: int) returns (removed: bool)
      modifies this
      ensures State() == Apply(old(State()), Op.Persist(key), now)
      ensures Flag(removed) == AnswerTo(old(State()), Op.Persist(key), now)
    {
      if !KeyExists(key) { return false; }
      var expired := ExpireLazily(key, now);
      if expired { return false; }
      assert State() == old(State());
      removed := key in expiry;
      expiry := expiry - {key};
    }

    /** The scan of the background thread: the first entries of the expiry map,
        in the order in which the map happens to yield them. */
    method Sweep(now: int) returns (ghost sample: set<string>)
      modifies this
      ensures sample <= old(expiry).Keys && |sample| <= 20
      ensures sample == old(expiry).Keys || |sample| == 20
      ensures State() == Purge(old(State()), sample, now)
    {
      var toDelete;
      toDelete, sample := SampleExpired(expiry, now);
      assert Elements(toDelete) == set k | k in sample && Expired(State(), k, now);
      RemoveAll(toDelete);
    }

    static method SampleExpired(deadlines: map<string, int>, now: int)
      returns (toDelete: seq<string>, ghost sample: set<string>)
      ensures sample <= deadlines.Keys && |sample| <= MAX_SAMPLE
      ensures sample == deadlines.Keys || |sample| == MAX_SAMPLE
      ensures forall k :: k in toDelete <==> k in sample && deadlines[k] <= now
    {
      toDelete, sample := [], {};
      var unseen := deadlines.Keys;
      var sampled := 0;
      while unseen != {} && sampled < MAX_SAMPLE
        invariant unseen <= deadlines.Keys && sample == deadlines.Keys - unseen
        invariant sampled == |sample| <= MAX_SAMPLE
        invariant forall k :: k in toDelete <==> k in sample && deadlines[k] <= now
        decreases |unseen|
      {
        var key :| key in unseen;
        if deadlines[key] <= now {
          toDelete := toDelete + [key];
        }
        unseen := unseen - {key};
        sample := sample + {key};
        sampled := sampled + 1;
      }
    }

    method GetSnapshot() returns (snapshot: Store)
      ensures snapshot == State()
    {
      return Store(store, listStore, expiry);
    }

    method LoadSnapshot(snapshot: Store)
      modifies this
      ensures State() == snapshot
    {
      store, listStore, expiry := snapshot.strings, snapshot.lists, snapshot.expiry;
    }
  }

  ghost predicate Splits(keys: set<string>, s: Store, expired: seq<string>, live: seq<string>, now: int) {
    && (forall k :: k in expired <==> k in keys && Expired(s, k, now))
    && (forall k :: k in live <==> k in keys && !Expired(s, k, now))
  }

  lemma {:induction false} Partitioned(s: Store, expired1: seq<string>, live1: seq<string>, expired2: seq<string>,
                                       live2: seq<string>, now: int)
    requires Splits(s.strings.Keys, s, expired1, live1, now) && Splits(s.lists.Keys, s, expired2, live2, now)
    ensures Erase(s, Elements(expired1 + expired2)) == Purge(s, Stored(s), now)
    ensures Elements(live1) == LiveStrings(s, now) && Elements(live2) == LiveLists(s, now)
  {
    assert Elements(expired1 + expired2) == set k | k in Stored(s) && Expired(s, k, now);
  }

  /** Deleting one more key. */
  lemma {:induction false} WithoutMore(s: Store, gone: set<string>, key: string)
    ensures Without(Without(s, gone), {key}) == Without(s, gone + {key})
  {
    var w, all := Without(Without(s, gone), {key}), Without(s, gone + {key});
    assert w.strings == all.strings && w.lists == all.lists;
    assert w.expiry == all.expiry;
  }

  lemma {:induction false} CountMore(gone: set<string>, stored: set<string>, key: string)
    ensures |(gone + {key}) * stored| == |gone * stored| + (if key in stored && key !in gone then 1 else 0)
  {
    if key in stored && key !in gone {
      assert (gone + {key}) * stored == gone * stored + {key};
      assert key !in gone * stored;
    } else {
      assert (gone + {key}) * stored == gone * stored;
    }
  }

  /** The first `n` of the keys. */
  ghost function FirstOf(keys: seq<string>, n: nat): set<string>
    requires n <= |keys|
  {
    if n == 0 then {} else FirstOf(keys, n - 1) + {keys[n - 1]}
  }

  lemma {:induction false} FirstOfIs(keys: seq<string>, n: nat)
    requires n <= |keys|
    ensures FirstOf(keys, n) == Elements(keys[..n])
    decreases n
  {
    if n == 0 {
    } else {
      FirstOfIs(keys, n - 1);
      ElementsUpTo(keys, n - 1);
    }
  }

  lemma {:induction false} DelNone(s: Store, gone: set<string>)
    requires gone == {}
    ensures Without(s, gone) == s && |gone * Stored(s)| == 0
  {
    assert gone * Stored(s) == {};
  }

  lemma {:induction false} DelMore(s: Store, gone: set<string>, key: string)
    ensures Without(Without(s, gone), {key}) == Without(s, gone + {key})
    ensures |(gone + {key}) * Stored(s)| == |gone * Stored(s)| + (if key in Stored(Without(s, gone)) then 1 else 0)
  {
    WithoutMore(s, gone, key);
    CountMore(gone, Stored(s), key);
  }

  lemma {:induction false} PurgeNone(s: Store, now: int)
    ensures Purge(s, {}, now) == s
  {
    assert (set k | k in {} && Expired(s, k, now)) == {};
  }

  lemma {:induction false} PurgeMore(s: Store, keys: set<string>, key: string, now: int)
    ensures Purge(Purge(s, keys, now), {key}, now) == Purge(s, keys + {key}, now)
  {
    var p := Purge(s, keys, now);
    assert (set k | k in keys + {key} && Expired(s, k, now)) ==
           (set k | k in keys && Expired(s, k, now)) + (set k | k in {key} && Expired(p, k, now));
  }

  lemma {:induction false} LivePurged(s: Store, keys: set<string>, key: string, now: int)
    ensures
      var p := Purge(s, keys, now);
      key in LiveStrings(p, now) + LiveLists(p, now) <==> key in LiveStrings(s, now) + LiveLists(s, now)
  {
  }
}
