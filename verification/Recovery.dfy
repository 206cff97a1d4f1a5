/** What a snapshot file guarantees: a faithful round trip, and no undetected damage. */
module Recovery {
  import opened Base
  import opened Store
  import opened Polynomial
  import opened Crc
  import Codec
  import opened Persistence
  import ListLaws
  import opened Database

  // ---------------------------------------------------------------------
  // Save, then load
  // ---------------------------------------------------------------------

  /** At least a whole millisecond is left, or there is no deadline. */
  ghost predicate Kept(s: Store, key: string, saved: int) {
    key in s.expiry ==> MillisLeft(saved, s.expiry[key]) >= 1
  }

  ghost function KeptStrings(s: Store, keys: set<string>, saved: int): map<string, string> {
    map k | k in keys && k in s.strings && Kept(s, k, saved) :: s.strings[k]
  }

  ghost function KeptLists(s: Store, keys: set<string>, saved: int): map<string, seq<string>> {
    map k | k in keys && k in s.lists && Kept(s, k, saved) :: s.lists[k]
  }

  /** Remaining time is measured on the saving clock and counted again on the loading one. */
  ghost function Rebased(s: Store, keys: set<string>, saved: int, loaded: int): map<string, int> {
    map k | k in keys && k in s.expiry && Kept(s, k, saved) ::
      MillisAfter(loaded, MillisLeft(saved, s.expiry[k]))
  }

  ghost function Restored(s: Store, saved: int, loaded: int): Store {
    Store(KeptStrings(s, s.strings.Keys, saved), KeptLists(s, s.lists.Keys, saved),
          Rebased(s, Stored(s), saved, loaded))
  }

  lemma {:induction false} StringRecordsTail(s: Store, keys: seq<string>, now: int)
    requires Elements(keys) <= s.strings.Keys && keys != []
    ensures Elements(keys[1..]) <= s.strings.Keys && keys[0] in s.strings
    ensures Elements(keys) == {keys[0]} + Elements(keys[1..])
    ensures StringRecords(s, keys, now) == [StringRecord(s, keys[0], now)] + StringRecords(s, keys[1..], now)
  {
    assert keys[0] in Elements(keys);
    forall k | k in keys[1..] ensures k in Elements(keys) {
    }
  }

  lemma {:induction false} ListRecordsTail(s: Store, keys: seq<string>, now: int)
    requires Elements(keys) <= s.lists.Keys && keys != []
    ensures Elements(keys[1..]) <= s.lists.Keys && keys[0] in s.lists
    ensures Elements(keys) == {keys[0]} + Elements(keys[1..])
    ensures ListRecords(s, keys, now) == [ListRecord(s, keys[0], now)] + ListRecords(s, keys[1..], now)
  {
    assert keys[0] in Elements(keys);
    forall k | k in keys[1..] ensures k in Elements(keys) {
    }
  }

  lemma {:induction false} Override<V>(m: map<string, V>, key: string, v: V, rest: map<string, V>)
    ensures m[key := v] + rest == m + (map[key := v] + rest)
  {
  }

  lemma {:induction false} KeptMoreStrings(s: Store, key: string, rest: set<string>, saved: int)
    requires key in s.strings
    ensures KeptStrings(s, {key} + rest, saved) ==
            if Kept(s, key, saved) then map[key := s.strings[key]] + KeptStrings(s, rest, saved)
            else KeptStrings(s, rest, saved)
  {
  }

  lemma {:induction false} KeptMoreLists(s: Store, key: string, rest: set<string>, saved: int)
    requires key in s.lists
    ensures KeptLists(s, {key} + rest, saved) ==
            if Kept(s, key, saved) then map[key := s.lists[key]] + KeptLists(s, rest, saved)
            else KeptLists(s, rest, saved)
  {
  }

  lemma {:induction false} RebasedMore(s: Store, key: string, rest: set<string>, saved: int, loaded: int)
    ensures Rebased(s, {key} + rest, saved, loaded) ==
            if key in s.expiry && Kept(s, key, saved)
            then map[key := MillisAfter(loaded, MillisLeft(saved, s.expiry[key]))] + Rebased(s, rest, saved, loaded)
            else Rebased(s, rest, saved, loaded)
  {
  }

  lemma {:induction false} OneString(acc: Store, s: Store, key: string, rest: set<string>, saved: int, loaded: int)
    requires key in s.strings
    ensures
      var next := Restore(acc, StringRecord(s, key, saved), loaded);
      && next.strings + KeptStrings(s, rest, saved) == acc.strings + KeptStrings(s, {key} + rest, saved)
      && next.lists == acc.lists
      && next.expiry + Rebased(s, rest, saved, loaded) == acc.expiry + Rebased(s, {key} + rest, saved, loaded)
  {
    KeptMoreStrings(s, key, rest, saved);
    RebasedMore(s, key, rest, saved, loaded);
    if Kept(s, key, saved) {
      Override(acc.strings, key, s.strings[key], KeptStrings(s, rest, saved));
      if key in s.expiry {
        Override(acc.expiry, key, MillisAfter(loaded, MillisLeft(saved, s.expiry[key])),
                 Rebased(s, rest, saved, loaded));
      }
    }
  }

  lemma {:induction false} OneList(acc: Store, s: Store, key: string, rest: set<string>, saved: int, loaded: int)
    requires key in s.lists
    ensures
      var next := Restore(acc, ListRecord(s, key, saved), loaded);
      && next.lists + KeptLists(s, rest, saved) == acc.lists + KeptLists(s, {key} + rest, saved)
      && next.strings == acc.strings
      && next.expiry + Rebased(s, rest, saved, loaded) == acc.expiry + Rebased(s, {key} + rest, saved, loaded)
  {
    KeptMoreLists(s, key, rest, saved);
    RebasedMore(s, key, rest, saved, loaded);
    if Kept(s, key, saved) {
      Override(acc.lists, key, s.lists[key], KeptLists(s, rest, saved));
      if key in s.expiry {
        Override(acc.expiry, key, MillisAfter(loaded, MillisLeft(saved, s.expiry[key])),
                 Rebased(s, rest, saved, loaded));
      }
    }
  }

  lemma {:induction false} StringsRestored(acc: Store, s: Store, keys: seq<string>, saved: int, loaded: int)
    requires Elements(keys) <= s.strings.Keys
    ensures RestoreAll(acc, StringRecords(s, keys, saved), loaded) ==
            Store(acc.strings + KeptStrings(s, Elements(keys), saved), acc.lists,
                  acc.expiry + Rebased(s, Elements(keys), saved, loaded))
    decreases |keys|
  {
    if keys == [] {
      assert KeptStrings(s, {}, saved) == map[] && Rebased(s, {}, saved, loaded) == map[];
      assert acc.strings + map[] == acc.strings && acc.expiry + map[] == acc.expiry;
    } else {
      StringRecordsTail(s, keys, saved);
      var next := Restore(acc, StringRecord(s, keys[0], saved), loaded);
      assert StringRecords(s, keys, saved)[1..] == StringRecords(s, keys[1..], saved);
      StringsRestored(next, s, keys[1..], saved, loaded);
      OneString(acc, s, keys[0], Elements(keys[1..]), saved, loaded);
    }
  }

  lemma {:induction false} ListsRestored(acc: Store, s: Store, keys: seq<string>, saved: int, loaded: int)
    requires Elements(keys) <= s.lists.Keys
    ensures RestoreAll(acc, ListRecords(s, keys, saved), loaded) ==
            Store(acc.strings, acc.lists + KeptLists(s, Elements(keys), saved),
                  acc.expiry + Rebased(s, Elements(keys), saved, loaded))
    decreases |keys|
  {
    if keys == [] {
      assert KeptLists(s, {}, saved) == map[] && Rebased(s, {}, saved, loaded) == map[];
      assert acc.lists + map[] == acc.lists && acc.expiry + map[] == acc.expiry;
    } else {
      ListRecordsTail(s, keys, saved);
      var next := Restore(acc, ListRecord(s, keys[0], saved), loaded);
      assert ListRecords(s, keys, saved)[1..] == ListRecords(s, keys[1..], saved);
      ListsRestored(next, s, keys[1..], saved, loaded);
      OneList(acc, s, keys[0], Elements(keys[1..]), saved, loaded);
    }
  }

  lemma {:induction false} RestoreConcat(s: Store, a: seq<Record>, b: seq<Record>, now: int)
    ensures RestoreAll(s, a + b, now) == RestoreAll(RestoreAll(s, a, now), b, now)
    decreases |a|
  {
    if a == [] {
      assert a + b == b;
    } else {
      assert (a + b)[1..] == a[1..] + b;
      RestoreConcat(Restore(s, a[0], now), a[1..], b, now);
    }
  }

  /** Whatever the order of the entries, they restore the same store. */
  lemma {:induction false} RecordsRestore(s: Store, strings: seq<string>, lists: seq<string>, saved: int, loaded: int)
    requires Consistent(s)
    requires Enumerates(strings, LiveStrings(s, saved)) && Enumerates(lists, LiveLists(s, saved))
    ensures RestoreAll(EMPTY, StringRecords(s, strings, saved) + ListRecords(s, lists, saved), loaded) ==
            Restored(s, saved, loaded)
  {
    RestoreConcat(EMPTY, StringRecords(s, strings, saved), ListRecords(s, lists, saved), loaded);
    StringsRestored(EMPTY, s, strings, saved, loaded);
    var half := RestoreAll(EMPTY, StringRecords(s, strings, saved), loaded);
    ListsRestored(half, s, lists, saved, loaded);
    LiveOnesSuffice(s, saved, loaded);
  }

  lemma {:induction false} KeptAreLive(s: Store, key: string, saved: int)
    requires Kept(s, key, saved)
    ensures !Expired(s, key, saved)
  {
  }

  lemma {:induction false} LiveOnesSuffice(s: Store, saved: int, loaded: int)
    requires Consistent(s)
    ensures map[] + KeptStrings(s, LiveStrings(s, saved), saved) == KeptStrings(s, s.strings.Keys, saved)
    ensures map[] + KeptLists(s, LiveLists(s, saved), saved) == KeptLists(s, s.lists.Keys, saved)
    ensures map[] + Rebased(s, LiveStrings(s, saved), saved, loaded) + Rebased(s, LiveLists(s, saved), saved, loaded)
            == Rebased(s, Stored(s), saved, loaded)
  {
    forall k | Kept(s, k, saved) ensures !Expired(s, k, saved) {
      KeptAreLive(s, k, saved);
    }
    assert KeptStrings(s, LiveStrings(s, saved), saved) == KeptStrings(s, s.strings.Keys, saved);
    assert KeptLists(s, LiveLists(s, saved), saved) == KeptLists(s, s.lists.Keys, saved);
  }

  /** All sizes and remaining times fit the fields of the format. */
  ghost predicate FitsStore(s: Store, saved: int) {
    && (forall k :: k in LiveStrings(s, saved) ==> Codec.Fits(StringRecord(s, k, saved)))
    && (forall k :: k in LiveLists(s, saved) ==> Codec.Fits(ListRecord(s, k, saved)))
    && |LiveStrings(s, saved)| + |LiveLists(s, saved)| < 0x1_0000_0000
  }

  lemma {:induction false} AtStart(file: Bytes, data: Bytes)
    requires |file| >= 4 && file[..|file| - 4] == data
    ensures At(file, 0, data)
  {
  }

  lemma {:induction false} DumpParts(file: Bytes, rs: seq<Record>)
    requires At(file, 0, Data(rs))
    ensures At(file, 0, Codec.TextBytes(MAGIC)) && At(file, 9, Codec.U32(|rs|))
    ensures At(file, 13, Codec.WriteAll(Codec.Encode, rs))
  {
    AtConcat(file, 0, Header(|rs|), Codec.WriteAll(Codec.Encode, rs));
    AtConcat(file, 0, Codec.TextBytes(MAGIC), Codec.U32(|rs|));
  }

  lemma {:induction false} DumpLoads(file: Bytes, rs: seq<Record>, now: int)
    requires IsDump(file, rs) && |rs| < 0x1_0000_0000
    requires forall i :: 0 <= i < |rs| ==> Codec.Fits(rs[i])
    ensures LoadSpec(file, now) == Some(RestoreAll(EMPTY, rs, now))
  {
    AtStart(file, Data(rs));
    DumpParts(file, rs);
    Codec.U32Back(file, 9, |rs|);
    Codec.RecordsBack(file, 13, rs);
  }

  lemma {:induction false} RecordsFit(s: Store, strings: seq<string>, lists: seq<string>, saved: int, i: nat)
    requires FitsStore(s, saved) && Enumerates(strings, LiveStrings(s, saved)) && Enumerates(lists, LiveLists(s, saved))
    requires i < |strings| + |lists|
    ensures Codec.Fits((StringRecords(s, strings, saved) + ListRecords(s, lists, saved))[i])
  {
    var rs := StringRecords(s, strings, saved) + ListRecords(s, lists, saved);
    if i < |strings| {
      assert strings[i] in Elements(strings);
      assert rs[i] == StringRecord(s, strings[i], saved);
    } else {
      var j := i - |strings|;
      assert lists[j] in Elements(lists);
      assert rs[i] == ListRecord(s, lists[j], saved);
    }
  }

  lemma {:induction false} EntriesRestored(s: Store, file: Bytes, strings: seq<string>, lists: seq<string>,
                                           saved: int, loaded: int)
    requires Consistent(s) && FitsStore(s, saved) && Holds(file, s, strings, lists, saved)
    ensures LoadSpec(file, loaded) == Some(Restored(s, saved, loaded))
  {
    var rs := StringRecords(s, strings, saved) + ListRecords(s, lists, saved);
    forall i | 0 <= i < |rs| ensures Codec.Fits(rs[i]) {
      RecordsFit(s, strings, lists, saved, i);
    }
    DumpLoads(file, rs, loaded);
    RecordsRestore(s, strings, lists, saved, loaded);
  }

  /** Saving at one time and loading at another restores exactly the entries with
      no deadline or at least a millisecond left, with the remaining whole
      milliseconds counted from the time of loading. */
  lemma {:induction false} RoundTrip(s: Store, file: Bytes, saved: int, loaded: int)
    requires Consistent(s) && FitsStore(s, saved) && IsSave(file, s, saved)
    ensures LoadSpec(file, loaded) == Some(Restored(s, saved, loaded))
  {
    var strings, lists :| Holds(file, s, strings, lists, saved);
    EntriesRestored(s, file, strings, lists, saved, loaded);
  }

  /** The restored store satisfies the store invariant and shows every kept key
      with its old value, whatever the two clocks read. */
  lemma {:induction false} RestoredIsSound(s: Store, saved: int, loaded: int)
    requires Consistent(s)
    ensures Consistent(Restored(s, saved, loaded))
    ensures NoEmptyList(s) ==> NoEmptyList(Restored(s, saved, loaded))
    ensures forall k :: k in Live(Restored(s, saved, loaded), loaded) <==> k in Stored(s) && Kept(s, k, saved)
    ensures forall k :: k in Live(Restored(s, saved, loaded), loaded) ==>
              Live(Restored(s, saved, loaded), loaded)[k].value == EntryOf(s, k).value
  {
  }

  /** The same in plain numbers, in nanoseconds: of the time left at the save, whole milliseconds are kept. */
  ghost predicate Carried(s: Store, saved: int, t: Store, loaded: int) {
    && (forall k :: k in s.strings && k !in s.expiry ==> k in t.strings && t.strings[k] == s.strings[k])
    && (forall k :: k in s.lists && k !in s.expiry ==> k in t.lists && t.lists[k] == s.lists[k])
    && (forall k :: k in s.strings && k in s.expiry ==>
          (k in t.strings <==> s.expiry[k] - saved >= 1_000_000) && (k in t.strings ==> t.strings[k] == s.strings[k]))
    && (forall k :: k in s.lists && k in s.expiry ==>
          (k in t.lists <==> s.expiry[k] - saved >= 1_000_000) && (k in t.lists ==> t.lists[k] == s.lists[k]))
    && (forall k :: k in t.strings ==> k in s.strings) && (forall k :: k in t.lists ==> k in s.lists)
    && (forall k :: k in t.expiry <==> k in s.expiry && s.expiry[k] - saved >= 1_000_000)
    && (forall k :: k in t.expiry ==> Rescheduled(s.expiry[k] - saved, t.expiry[k] - loaded))
  }

  /** `after` is `before` cut down to whole milliseconds. */
  predicate Rescheduled(before: int, after: int) {
    after % 1_000_000 == 0 && after <= before < after + 1_000_000
  }

  lemma {:induction false} WholeMillis(before: int)
    ensures Rescheduled(before, before / 1_000_000 * 1_000_000)
    ensures before / 1_000_000 >= 1 <==> before >= 1_000_000
  {
  }

  lemma {:induction false} DeadlineCarried(s: Store, k: string, saved: int, loaded: int)
    requires k in s.expiry
    ensures Kept(s, k, saved) <==> s.expiry[k] - saved >= 1_000_000
    ensures Rescheduled(s.expiry[k] - saved, MillisAfter(loaded, MillisLeft(saved, s.expiry[k])) - loaded)
  {
    WholeMillis(s.expiry[k] - saved);
  }

  lemma {:induction false} RestoredCarried(s: Store, saved: int, loaded: int)
    requires Consistent(s)
    ensures Carried(s, saved, Restored(s, saved, loaded), loaded)
  {
    forall k | k in s.expiry
      ensures Kept(s, k, saved) <==> s.expiry[k] - saved >= 1_000_000
      ensures Rescheduled(s.expiry[k] - saved, MillisAfter(loaded, MillisLeft(saved, s.expiry[k])) - loaded)
    {
      DeadlineCarried(s, k, saved, loaded);
    }
  }

  /** Whatever was saved, loading carries over exactly that. */
  lemma {:induction false} SaveCarried(s: Store, file: Bytes, saved: int, loaded: int)
    requires Consistent(s) && FitsStore(s, saved) && IsSave(file, s, saved)
    ensures LoadSpec(file, loaded).Some? && Carried(s, saved, LoadSpec(file, loaded).value, loaded)
  {
    RoundTrip(s, file, saved, loaded);
    RestoredCarried(s, saved, loaded);
  }

  /** Saves a database and loads the file into another one. */
  method SaveAndLoad(source: Database, target: Database, saved: int, loaded: int)
    requires source != target
    requires Consistent(source.State()) && FitsStore(source.State(), saved)
    modifies target
    ensures target.State() == Restored(source.State(), saved, loaded)
    ensures Carried(source.State(), saved, target.State(), loaded)
  {
    var snapshot := source.GetSnapshot();
    var file := Save(snapshot, saved);
    RoundTrip(snapshot, file, saved, loaded);
    RestoredCarried(snapshot, saved, loaded);
    var ok := Load(file, target, loaded);
  }

  // ---------------------------------------------------------------------
  // Files that no save has written
  // ---------------------------------------------------------------------

  /** Whether an entry is loaded at all. */
  predicate Survives(r: Record) {
    r.ttl.Some? ==> r.ttl.value > 0
  }

  /** The keys that the records put into one of the two maps. */
  function Names(rs: seq<Record>, strings: bool): set<string> {
    if rs == [] then {}
    else
      (if rs[0].value.Str? == strings && Survives(rs[0]) then {rs[0].key} else {})
      + Names(rs[1..], strings)
  }

  lemma {:induction false} RestoredKey(s: Store, r: Record, now: int)
    requires s.expiry.Keys <= Stored(s)
    ensures
      var t := Restore(s, r, now);
      && t.strings.Keys == s.strings.Keys + (if r.value.Str? && Survives(r) then {r.key} else {})
      && t.lists.Keys == s.lists.Keys + (if r.value.Lst? && Survives(r) then {r.key} else {})
      && t.expiry.Keys <= Stored(t)
  {
  }

  lemma {:induction false} RestoredKeys(s: Store, rs: seq<Record>, now: int)
    requires s.expiry.Keys <= Stored(s)
    ensures RestoreAll(s, rs, now).strings.Keys == s.strings.Keys + Names(rs, true)
    ensures RestoreAll(s, rs, now).lists.Keys == s.lists.Keys + Names(rs, false)
    ensures RestoreAll(s, rs, now).expiry.Keys <= Stored(RestoreAll(s, rs, now))
    decreases |rs|
  {
    if rs == [] {
    } else {
      RestoredKey(s, rs[0], now);
      RestoredKeys(Restore(s, rs[0], now), rs[1..], now);
    }
  }

  /** A file whose checksum is right loads into a consistent store exactly when
      it does not give one key a string and a list. */
  lemma {:induction false} LoadConsistentExactly(file: Bytes, now: int)
    requires LoadSpec(file, now).Some?
    ensures
      var rs := Codec.ReadAll(Codec.Decode, file, 13, Codec.ReadU32(file, 9).value).value.value;
      Consistent(LoadSpec(file, now).value) <==> Names(rs, true) !! Names(rs, false)
  {
    var rs := Codec.ReadAll(Codec.Decode, file, 13, Codec.ReadU32(file, 9).value).value.value;
    RestoredKeys(EMPTY, rs, now);
  }

  /** Every empty list that is entered is replaced by a later entry of its key. */
  predicate Mended(rs: seq<Record>) {
    rs == [] ||
    ((rs[0].value == Lst([]) && Survives(rs[0]) ==> rs[0].key in Names(rs[1..], false)) && Mended(rs[1..]))
  }

  /** The empty lists among `lists` are replaced as well. */
  ghost predicate Patched(lists: map<string, seq<string>>, rs: seq<Record>) {
    forall k :: k in lists && lists[k] == [] ==> k in Names(rs, false)
  }

  lemma {:induction false} PatchedFirst(s: Store, rs: seq<Record>, now: int)
    requires rs != []
    ensures Mended(rs[1..]) && Patched(Restore(s, rs[0], now).lists, rs[1..]) <==> Mended(rs) && Patched(s.lists, rs)
  {
    var t, r := Restore(s, rs[0], now), rs[0];
    if r.value.Lst? && Survives(r) {
      assert t.lists == s.lists[r.key := r.value.items];
      if Patched(t.lists, rs[1..]) {
        forall k | k in s.lists && s.lists[k] == [] ensures k in Names(rs, false) {
          assert k != r.key ==> t.lists[k] == [];
        }
      }
      if Mended(rs) && Patched(s.lists, rs) {
        forall k | k in t.lists && t.lists[k] == [] ensures k in Names(rs[1..], false) {
          assert k != r.key ==> k in Names(rs, false);
        }
      }
    } else {
      assert t.lists == s.lists && Names(rs, false) == Names(rs[1..], false);
    }
  }

  lemma {:induction false} RestoredLists(s: Store, rs: seq<Record>, now: int)
    ensures NoEmptyList(RestoreAll(s, rs, now)) <==> Mended(rs) && Patched(s.lists, rs)
    decreases |rs|
  {
    if rs == [] {
    } else {
      RestoredLists(Restore(s, rs[0], now), rs[1..], now);
      PatchedFirst(s, rs, now);
    }
  }

  /** It loads into a store that keeps the whole invariant exactly when, besides,
      every empty list it enters is replaced by a later entry. */
  lemma {:induction false} LoadSoundExactly(file: Bytes, now: int)
    requires LoadSpec(file, now).Some?
    ensures
      var rs := Codec.ReadAll(Codec.Decode, file, 13, Codec.ReadU32(file, 9).value).value.value;
      ListLaws.Invariant(LoadSpec(file, now).value) <==> Names(rs, true) !! Names(rs, false) && Mended(rs)
  {
    var rs := Codec.ReadAll(Codec.Decode, file, 13, Codec.ReadU32(file, 9).value).value.value;
    LoadConsistentExactly(file, now);
    RestoredLists(EMPTY, rs, now);
  }

  const EMPTY_K := Codec.Record("k", Lst([]), None)
  const HOLLOW := Store(map[], map["k" := []], map[])

  /** A file, with a correct checksum, that stores an empty list. */
  method EmptyEntry(now: int) returns (file: Bytes)
    ensures IsDump(file, [EMPTY_K])
    ensures LoadSpec(file, now) == Some(HOLLOW) && Consistent(HOLLOW) && !ListLaws.Invariant(HOLLOW)
  {
    file := Seal(Data([EMPTY_K]));
    EmptyLoads(file, now);
  }

  lemma {:induction false} EmptyLoads(file: Bytes, now: int)
    requires IsDump(file, [EMPTY_K])
    ensures LoadSpec(file, now) == Some(HOLLOW) && Consistent(HOLLOW) && !ListLaws.Invariant(HOLLOW)
  {
    assert Codec.Fits(EMPTY_K);
    DumpLoads(file, [EMPTY_K], now);
    EmptyRestored(now);
    assert "k" in HOLLOW.lists;
  }

  lemma {:induction false} EmptyRestored(now: int)
    ensures RestoreAll(EMPTY, [EMPTY_K], now) == HOLLOW
  {
    assert [EMPTY_K][1..] == [];
    assert RestoreAll(HOLLOW, [], now) == HOLLOW;
  }

  const STRING_K := Codec.Record("k", Str("v"), None)
  const LIST_K := Codec.Record("k", Lst(["x"]), None)
  const BOTH_K := Store(map["k" := "v"], map["k" := ["x"]], map[])

  /** A file, with a correct checksum, that puts one key in both maps. */
  method DoubleEntry(now: int) returns (file: Bytes)
    ensures IsDump(file, [STRING_K, LIST_K])
    ensures LoadSpec(file, now) == Some(BOTH_K) && !Consistent(BOTH_K)
  {
    file := Seal(Data([STRING_K, LIST_K]));
    DoubleLoads(file, now);
  }

  lemma {:induction false} DoubleLoads(file: Bytes, now: int)
    requires IsDump(file, [STRING_K, LIST_K])
    ensures LoadSpec(file, now) == Some(BOTH_K) && !Consistent(BOTH_K)
  {
    DoubleFits();
    DumpLoads(file, [STRING_K, LIST_K], now);
    DoubleRestored(now);
    assert "k" in BOTH_K.strings && "k" in BOTH_K.lists;
  }

  lemma {:induction false} DoubleFits()
    ensures Codec.Fits(STRING_K) && Codec.Fits(LIST_K)
  {
  }

  lemma {:induction false} DoubleRestored(now: int)
    ensures RestoreAll(EMPTY, [STRING_K, LIST_K], now) == BOTH_K
  {
    var rs := [STRING_K, LIST_K];
    assert rs[1..] == [LIST_K] && [LIST_K][1..] == [];
    assert RestoreAll(BOTH_K, [], now) == BOTH_K;
  }

  // ---------------------------------------------------------------------
  // Damage
  // ---------------------------------------------------------------------

  lemma {:induction false} RawByteInjective(a: Codec.byte, b: Codec.byte)
    requires RawByte(a) == RawByte(b)
    ensures a == b
  {
    ByteBack(a as int);
    ByteBack(b as int);
  }

  lemma {:induction false} ByteBack(n: int)
    requires 0 <= n < 256
    ensures (n as bv8) as int == n
  {
    if n < 32 {
      assert (n as bv8) as int == n;
    } else if n < 64 {
      assert (n as bv8) as int == n;
    } else if n < 96 {
      assert (n as bv8) as int == n;
    } else if n < 128 {
      assert (n as bv8) as int == n;
    } else if n < 160 {
      assert (n as bv8) as int == n;
    } else if n < 192 {
      assert (n as bv8) as int == n;
    } else if n < 224 {
      assert (n as bv8) as int == n;
    } else {
      assert (n as bv8) as int == n;
    }
  }

  lemma {:induction false} RawInjective(a: Bytes, b: Bytes)
    requires Raw(a) == Raw(b)
    ensures a == b
  {
    assert |a| == |Raw(a)| == |b|;
    forall i | 0 <= i < |a| ensures a[i] == b[i] {
      assert RawByte(a[i]) == Raw(a)[i] == Raw(b)[i] == RawByte(b[i]);
      RawByteInjective(a[i], b[i]);
    }
  }

  lemma {:induction false} ReadBigInjective(a: Bytes, b: Bytes, pos: nat, width: nat)
    requires pos + width <= |a| == |b|
    requires Codec.ReadBig(a, pos, width) == Codec.ReadBig(b, pos, width)
    ensures forall i :: pos <= i < pos + width ==> a[i] == b[i]
    decreases width
  {
    if width == 0 {
    } else {
      ReadBigInjective(a, b, pos, width - 1);
    }
  }

  lemma {:induction false} ReadBigLocal(a: Bytes, b: Bytes, pos: nat, width: nat)
    requires pos + width <= |a| == |b|
    requires forall i :: pos <= i < pos + width ==> a[i] == b[i]
    ensures Codec.ReadBig(a, pos, width) == Codec.ReadBig(b, pos, width)
    decreases width
  {
    if width == 0 {
    } else {
      ReadBigLocal(a, b, pos, width - 1);
    }
  }

  function DataPart(file: Bytes): Bytes
    requires |file| >= 4
  {
    file[..|file| - 4]
  }

  /** Damage to at most 32 consecutive bits of the data part is always noticed. */
  lemma {:induction false} BurstRejected(file: Bytes, bad: Bytes, start: nat, now: int)
    requires CrcOk(file) && |bad| == |file|
    requires Burst(MessageBits(Raw(DataPart(file))), MessageBits(Raw(DataPart(bad))), start)
    requires file[|file| - 4..] == bad[|file| - 4..]
    ensures LoadSpec(bad, now) == None
  {
    BurstDetected(MessageBits(Raw(DataPart(file))), MessageBits(Raw(DataPart(bad))), start);
    if CrcOk(bad) {
      var n := |file| - 4;
      forall i | n <= i < n + 4 ensures file[i] == bad[i] {
        assert file[n..][i - n] == bad[n..][i - n];
      }
      ReadBigLocal(file, bad, n, 4);
      SameWordSameChecksum(file, bad);
    }
  }

  lemma {:induction false} SameWordSameChecksum(file: Bytes, bad: Bytes)
    requires CrcOk(file) && CrcOk(bad) && |bad| == |file|
    requires Codec.ReadU32(file, |file| - 4) == Codec.ReadU32(bad, |file| - 4)
    ensures Checksum(MessageBits(Raw(DataPart(file)))) == Checksum(MessageBits(Raw(DataPart(bad))))
  {
    var v, w :| Seals(file, v) && Seals(bad, w);
    assert (v as nat) as bv32 == v && (w as nat) as bv32 == w;
  }

  lemma {:induction false} SameChecksumSameWord(file: Bytes, bad: Bytes)
    requires CrcOk(file) && CrcOk(bad) && |bad| == |file|
    requires DataPart(file) == DataPart(bad)
    ensures Codec.ReadU32(file, |file| - 4) == Codec.ReadU32(bad, |file| - 4)
  {
    var v, w :| Seals(file, v) && Seals(bad, w);
    WordBitsInjective(v, w);
  }

  /** Damage to any of four consecutive bytes of the data part is always noticed. */
  lemma {:induction false} FourBytesRejected(file: Bytes, bad: Bytes, first: nat, now: int)
    requires CrcOk(file) && |bad| == |file| && bad != file
    requires forall i :: 0 <= i < |file| && !(first <= i < first + 4 && i < |file| - 4) ==> bad[i] == file[i]
    ensures LoadSpec(bad, now) == None
  {
    var a, b := Raw(DataPart(file)), Raw(DataPart(bad));
    SameTrailer(file, bad);
    assert a != b by {
      if a == b { RawInjective(DataPart(file), DataPart(bad)); }
    }
    FourBytesAreBurst(a, b, first);
    BurstRejected(file, bad, 8 * first, now);
  }

  /** With equal trailers, files differ in their data part. */
  lemma {:induction false} SameTrailer(file: Bytes, bad: Bytes)
    requires |bad| == |file| >= 4 && bad != file
    requires forall i :: |file| - 4 <= i < |file| ==> bad[i] == file[i]
    ensures file[|file| - 4..] == bad[|file| - 4..]
    ensures DataPart(file) != DataPart(bad)
  {
    var n := |file| - 4;
    var i :| 0 <= i < |file| && bad[i] != file[i];
    assert DataPart(file)[i] != DataPart(bad)[i];
  }

  lemma {:induction false} SomeDifference(file: Bytes, bad: Bytes) returns (i: nat)
    requires |bad| == |file| >= 4 && bad != file && DataPart(bad) == DataPart(file)
    ensures |file| - 4 <= i < |file| && bad[i] != file[i]
  {
    i :| 0 <= i < |file| && bad[i] != file[i];
    assert forall k :: 0 <= k < |file| - 4 ==> bad[k] == DataPart(bad)[k] == DataPart(file)[k] == file[k];
  }

  /** Damage to the stored checksum alone is always noticed. */
  lemma {:induction false} TrailerRejected(file: Bytes, bad: Bytes, now: int)
    requires CrcOk(file) && |bad| == |file| && bad != file
    requires DataPart(bad) == DataPart(file)
    ensures LoadSpec(bad, now) == None
  {
    var n := |file| - 4;
    var i := SomeDifference(file, bad);
    if CrcOk(bad) {
      SameChecksumSameWord(file, bad);
      ReadBigInjective(file, bad, n, 4);
    }
  }
}
