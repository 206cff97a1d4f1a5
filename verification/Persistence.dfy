/**
 Saving the store to the bytes of a snapshot file and loading it again.

 `Save` and `Load` are proved against `IsDump` and `LoadSpec`; the theorems are
 the round trip between two clocks and the rejection of corrupted files.
 */
module Persistence {
  import opened Base
  import opened Store
  import opened Polynomial
  import opened Crc
  import Codec
  import opened Database

  type Bytes = Codec.Bytes
  type Record = Codec.Record

  const MAGIC := "MYREDIS01"

  function MillisLeft(now: int, deadline: int): int {
    (deadline - now) / 1_000_000
  }

  function MillisAfter(now: int, millis: int): int {
    now + millis * 1_000_000
  }

  // ---------------------------------------------------------------------
  // Checksummed files
  // ---------------------------------------------------------------------

  function RawByte(b: Codec.byte): bv8 {
    b as int as bv8
  }

  function Raw(file: Bytes): (r: seq<bv8>)
    ensures |r| == |file|
  {
    seq(|file|, i requires 0 <= i < |file| => RawByte(file[i]))
  }

  /** The last four bytes hold the checksum of all the others. */
  ghost predicate CrcOk(file: Bytes) {
    |file| >= 4 && exists w: bv32 :: Seals(file, w)
  }

  ghost predicate Seals(file: Bytes, w: bv32)
    requires |file| >= 4
  {
    && WordBits(w) == Checksum(MessageBits(Raw(file[..|file| - 4])))
    && Codec.ReadU32(file, |file| - 4) == Some(w as nat)
  }

  // ---------------------------------------------------------------------
  // Saving
  // ---------------------------------------------------------------------

  function TtlOf(s: Store, key: string, now: int): Option<int> {
    if key in s.expiry then Some(MillisLeft(now, s.expiry[key])) else None
  }

  function StringRecord(s: Store, key: string, now: int): Record
    requires key in s.strings
  {
    Codec.Record(key, Str(s.strings[key]), TtlOf(s, key, now))
  }

  function ListRecord(s: Store, key: string, now: int): Record
    requires key in s.lists
  {
    Codec.Record(key, Lst(s.lists[key]), TtlOf(s, key, now))
  }

  function StringRecords(s: Store, keys: seq<string>, now: int): (r: seq<Record>)
    requires Elements(keys) <= s.strings.Keys
    ensures |r| == |keys|
  {
    seq(|keys|, i requires 0 <= i < |keys| => assert keys[i] in Elements(keys); StringRecord(s, keys[i], now))
  }

  function ListRecords(s: Store, keys: seq<string>, now: int): (r: seq<Record>)
    requires Elements(keys) <= s.lists.Keys
    ensures |r| == |keys|
  {
    seq(|keys|, i requires 0 <= i < |keys| => assert keys[i] in Elements(keys); ListRecord(s, keys[i], now))
  }

  function Header(count: nat): (r: Bytes)
    ensures |r| == 13
  {
    Codec.TextBytes(MAGIC) + Codec.U32(count)
  }

  function Data(rs: seq<Record>): Bytes {
    Header(|rs|) + Codec.WriteAll(Codec.Encode, rs)
  }

  /** A complete file: the records, and the checksum behind them. */
  ghost predicate IsDump(file: Bytes, rs: seq<Record>) {
    CrcOk(file) && file[..|file| - 4] == Data(rs)
  }

  /** The file holds one entry for each live key, strings first, in the given orders. */
  ghost predicate Holds(file: Bytes, s: Store, strings: seq<string>, lists: seq<string>, now: int) {
    && Enumerates(strings, LiveStrings(s, now)) && Enumerates(lists, LiveLists(s, now))
    && IsDump(file, StringRecords(s, strings, now) + ListRecords(s, lists, now))
  }

  /** A file starts with nine letters and the number of entries, and ends with the checksum. */
  lemma {:induction false} FileLayout(file: Bytes, rs: seq<Record>)
    requires IsDump(file, rs)
    ensures file[..9] == [77, 89, 82, 69, 68, 73, 83, 48, 49] && file[9..13] == Codec.U32(|rs|)
    ensures file[13..|file| - 4] == Codec.WriteAll(Codec.Encode, rs)
    ensures exists w: bv32 :: WordBits(w) == Checksum(MessageBits(Raw(file[..|file| - 4])))
                           && Codec.ReadU32(file, |file| - 4) == Some(w as nat)
  {
    var data := Data(rs);
    MagicLetters();
    assert data[..9] == Codec.TextBytes(MAGIC) && data[9..13] == Codec.U32(|rs|);
    assert data[13..] == Codec.WriteAll(Codec.Encode, rs);
    assert file[..9] == data[..9] && file[9..13] == data[9..13] && file[13..|file| - 4] == data[13..];
    var w :| Seals(file, w);
  }

  lemma {:induction false} MagicLetters()
    ensures Codec.TextBytes(MAGIC) == [77, 89, 82, 69, 68, 73, 83, 48, 49]
  {
  }

  /** What a save at `now` may write, whatever the iteration orders. */
  ghost predicate IsSave(file: Bytes, s: Store, now: int) {
    exists strings, lists :: Holds(file, s, strings, lists, now)
  }

  lemma {:induction false} WriteAllConcat<T>(write: T -> Bytes, xs: seq<T>, ys: seq<T>)
    ensures Codec.WriteAll(write, xs + ys) == Codec.WriteAll(write, xs) + Codec.WriteAll(write, ys)
    decreases |xs|
  {
    if xs == [] {
      assert xs + ys == ys;
    } else {
      assert (xs + ys)[1..] == xs[1..] + ys;
      WriteAllConcat(write, xs[1..], ys);
    }
  }

  lemma {:induction false} WriteAllSnoc<T>(write: T -> Bytes, xs: seq<T>, x: T)
    ensures Codec.WriteAll(write, xs + [x]) == Codec.WriteAll(write, xs) + write(x)
  {
    WriteAllConcat(write, xs, [x]);
    assert Codec.WriteAll(write, [x]) == write(x) + Codec.WriteAll(write, []);
  }

  lemma {:induction false} EnumeratesMore(keys: seq<string>, live: set<string>, todo: set<string>, key: string)
    requires key in todo && Enumerates(keys, live - todo)
    ensures Enumerates(if key in live then keys + [key] else keys, live - (todo - {key}))
  {
    ElementsSnoc(keys, key);
    if key in live {
      assert live - (todo - {key}) == (live - todo) + {key};
    } else {
      assert live - (todo - {key}) == live - todo;
    }
  }

  lemma {:induction false} StringStep(s: Store, keys: seq<string>, key: string, now: int)
    requires Elements(keys) <= s.strings.Keys && key in s.strings
    ensures Elements(keys + [key]) <= s.strings.Keys
    ensures Codec.WriteAll(Codec.Encode, StringRecords(s, keys + [key], now)) ==
            Codec.WriteAll(Codec.Encode, StringRecords(s, keys, now)) + Codec.Encode(StringRecord(s, key, now))
  {
    ElementsSnoc(keys, key);
    WriteAllSnoc(Codec.Encode, StringRecords(s, keys, now), StringRecord(s, key, now));
    assert StringRecords(s, keys + [key], now) == StringRecords(s, keys, now) + [StringRecord(s, key, now)];
  }

  lemma {:induction false} ListStep(s: Store, keys: seq<string>, key: string, now: int)
    requires Elements(keys) <= s.lists.Keys && key in s.lists
    ensures Elements(keys + [key]) <= s.lists.Keys
    ensures Codec.WriteAll(Codec.Encode, ListRecords(s, keys + [key], now)) ==
            Codec.WriteAll(Codec.Encode, ListRecords(s, keys, now)) + Codec.Encode(ListRecord(s, key, now))
  {
    ElementsSnoc(keys, key);
    WriteAllSnoc(Codec.Encode, ListRecords(s, keys, now), ListRecord(s, key, now));
    assert ListRecords(s, keys + [key], now) == ListRecords(s, keys, now) + [ListRecord(s, key, now)];
  }

  method WriteStrings(s: Store, now: int) returns (out: Bytes, ghost keys: seq<string>)
    ensures Enumerates(keys, LiveStrings(s, now))
    ensures out == Codec.WriteAll(Codec.Encode, StringRecords(s, keys, now))
  {
    out, keys := [], [];
    var todo := s.strings.Keys;
    while todo != {}
      invariant todo <= s.strings.Keys
      invariant Enumerates(keys, LiveStrings(s, now) - todo)
      invariant out == Codec.WriteAll(Codec.Encode, StringRecords(s, keys, now))
      decreases |todo|
    {
      var key :| key in todo;
      EnumeratesMore(keys, LiveStrings(s, now), todo, key);
      if !Expired(s, key, now) {
        StringStep(s, keys, key, now);
        out := out + Codec.Encode(StringRecord(s, key, now));
        keys := keys + [key];
      }
      todo := todo - {key};
    }
    assert LiveStrings(s, now) - {} == LiveStrings(s, now);
  }

  method WriteLists(s: Store, now: int) returns (out: Bytes, ghost keys: seq<string>)
    ensures Enumerates(keys, LiveLists(s, now))
    ensures out == Codec.WriteAll(Codec.Encode, ListRecords(s, keys, now))
  {
    out, keys := [], [];
    var todo := s.lists.Keys;
    while todo != {}
      invariant todo <= s.lists.Keys
      invariant Enumerates(keys, LiveLists(s, now) - todo)
      invariant out == Codec.WriteAll(Codec.Encode, ListRecords(s, keys, now))
      decreases |todo|
    {
      var key :| key in todo;
      EnumeratesMore(keys, LiveLists(s, now), todo, key);
      if !Expired(s, key, now) {
        ListStep(s, keys, key, now);
        out := out + Codec.Encode(ListRecord(s, key, now));
        keys := keys + [key];
      }
      todo := todo - {key};
    }
    assert LiveLists(s, now) - {} == LiveLists(s, now);
  }

  /** Counts the keys of one map that have not expired. */
  method CountLive(keys: set<string>, s: Store, now: int, ghost live: set<string>) returns (count: nat)
    requires live <= keys && forall k :: k in keys ==> (k in live <==> !Expired(s, k, now))
    ensures count == |live|
  {
    count := 0;
    var todo := keys;
    while todo != {}
      invariant todo <= keys && count == |live - todo|
      decreases |todo|
    {
      var key :| key in todo;
      if !Expired(s, key, now) {
        count := count + 1;
        assert live - (todo - {key}) == (live - todo) + {key};
      } else {
        assert live - (todo - {key}) == live - todo;
      }
      todo := todo - {key};
    }
    assert live - {} == live;
  }

  lemma {:induction false} Assembled(strings: seq<Record>, lists: seq<Record>, n: nat, out1: Bytes, out2: Bytes)
    requires n == |strings| + |lists|
    requires out1 == Codec.WriteAll(Codec.Encode, strings) && out2 == Codec.WriteAll(Codec.Encode, lists)
    ensures Header(n) + out1 + out2 == Data(strings + lists)
  {
    WriteAllConcat(Codec.Encode, strings, lists);
    Regroup(Header(n), out1, out2);
  }

  /** Writes every string entry and then every list entry that has not expired. */
  method Save(s: Store, now: int) returns (file: Bytes)
    ensures IsSave(file, s, now)
  {
    var n1 := CountLive(s.strings.Keys, s, now, LiveStrings(s, now));
    var n2 := CountLive(s.lists.Keys, s, now, LiveLists(s, now));
    var out1, out2;
    ghost var strings, lists;
    out1, strings := WriteStrings(s, now);
    out2, lists := WriteLists(s, now);
    ghost var rs1, rs2 := StringRecords(s, strings, now), ListRecords(s, lists, now);
    file := Finish(n1 + n2, out1, out2, rs1, rs2);
    assert Holds(file, s, strings, lists, now);
  }

  method Finish(count: nat, out1: Bytes, out2: Bytes, ghost strings: seq<Record>, ghost lists: seq<Record>)
    returns (file: Bytes)
    requires count == |strings| + |lists|
    requires out1 == Codec.WriteAll(Codec.Encode, strings) && out2 == Codec.WriteAll(Codec.Encode, lists)
    ensures IsDump(file, strings + lists)
  {
    Assembled(strings, lists, count, out1, out2);
    file := Seal(Header(count) + out1 + out2);
  }

  method Seal(data: Bytes) returns (file: Bytes)
    ensures CrcOk(file) && file[..|file| - 4] == data
  {
    var crc := ComputeCrc32(Raw(data), |data|);
    file := data + Codec.U32(crc as nat);
    SealOk(data, crc);
  }

  lemma {:induction false} SealOk(data: Bytes, crc: bv32)
    requires WordBits(crc) == Checksum(MessageBits(Raw(data)[..|data|]))
    ensures CrcOk(data + Codec.U32(crc as nat))
    ensures (data + Codec.U32(crc as nat))[..|data|] == data
  {
    var file := data + Codec.U32(crc as nat);
    assert Raw(data)[..|data|] == Raw(data);
    assert file[..|file| - 4] == data;
    assert At(file, |data|, Codec.U32(crc as nat));
    Codec.U32Back(file, |data|, crc as nat);
    assert Seals(file, crc);
  }

  // ---------------------------------------------------------------------
  // Loading
  // ---------------------------------------------------------------------

  /** Enters one record into the snapshot; one whose time is up is skipped. */
  function Restore(s: Store, r: Record, now: int): Store {
    if r.ttl.Some? && r.ttl.value <= 0 then s
    else
      var t := match r.value
               case Str(x) => s.(strings := s.strings[r.key := x])
               case Lst(xs) => s.(lists := s.lists[r.key := xs]);
      if r.ttl.None? then t else t.(expiry := t.expiry[r.key := MillisAfter(now, r.ttl.value)])
  }

  function RestoreAll(s: Store, rs: seq<Record>, now: int): Store
    decreases |rs|
  {
    if rs == [] then s else RestoreAll(Restore(s, rs[0], now), rs[1..], now)
  }

  /** What loading a file at time `now` puts into the database, if it does. */
  ghost function LoadSpec(file: Bytes, now: int): Option<Store> {
    if |file| < 17 || !CrcOk(file) || !At(file, 0, Codec.TextBytes(MAGIC)) then None
    else match Codec.ReadAll(Codec.Decode, file, 13, Codec.ReadU32(file, 9).value)
      case None => None
      case Some(rs) => Some(RestoreAll(EMPTY, rs.value, now))
  }

  method ReadItems(file: Bytes, start: nat, count: nat) returns (ok: bool, items: seq<string>, pos: nat)
    ensures ok == Codec.ReadAll(Codec.ReadStr, file, start, count).Some?
    ensures ok ==> Codec.ReadAll(Codec.ReadStr, file, start, count) == Some(Codec.Read(items, pos))
  {
    items, pos, ok := [], start, true;
    var j := 0;
    PrependNothing(Codec.ReadAll(Codec.ReadStr, file, start, count));
    while j < count
      invariant 0 <= j <= count
      invariant Codec.ReadAll(Codec.ReadStr, file, start, count) ==
                Prepend(items, Codec.ReadAll(Codec.ReadStr, file, pos, count - j))
    {
      match Codec.ReadStr(file, pos) {
        case None =>
          ok := false;
          return;
        case Some(item) =>
          PrependSnoc(items, item.value, Codec.ReadAll(Codec.ReadStr, file, item.next, count - j - 1));
          items, pos, j := items + [item.value], item.next, j + 1;
      }
    }
    PrependToNothing(items, pos);
  }

  function Prepend<T>(xs: seq<T>, r: Option<Codec.Read<seq<T>>>): Option<Codec.Read<seq<T>>> {
    match r
    case None => None
    case Some(read) => Some(Codec.Read(xs + read.value, read.next))
  }

  lemma {:induction false} PrependNothing<T>(r: Option<Codec.Read<seq<T>>>)
    ensures Prepend([], r) == r
  {
    if r.Some? { assert [] + r.value.value == r.value.value; }
  }

  lemma {:induction false} PrependToNothing<T>(xs: seq<T>, pos: nat)
    ensures Prepend(xs, Some(Codec.Read([], pos))) == Some(Codec.Read(xs, pos))
  {
    assert xs + [] == xs;
  }

  lemma {:induction false} PrependSnoc<T>(xs: seq<T>, x: T, r: Option<Codec.Read<seq<T>>>)
    ensures Prepend(xs, Prepend([x], r)) == Prepend(xs + [x], r)
  {
    if r.Some? { assert xs + ([x] + r.value.value) == xs + [x] + r.value.value; }
  }

  method ReadEntry(file: Bytes, start: nat) returns (ok: bool, entry: Record, pos: nat)
    ensures ok == Codec.Decode(file, start).Some?
    ensures ok ==> Codec.Decode(file, start) == Some(Codec.Read(entry, pos))
  {
    ok, pos, entry := false, start, Codec.Record("", Str(""), None);
    if pos + 2 > |file| { return; }
    var tag, flags := file[pos], file[pos + 1];
    var key := Codec.ReadStr(file, pos + 2);
    if key.None? { return; }
    pos := key.value.next;
    var value := Str("");
    if tag == Codec.TYPE_STRING {
      var x := Codec.ReadStr(file, pos);
      if x.None? { return; }
      value, pos := Str(x.value.value), x.value.next;
    } else if tag == Codec.TYPE_LIST {
      var count := Codec.ReadU32(file, pos);
      if count.None? { return; }
      var read, items, next := ReadItems(file, pos + 4, count.value);
      if !read { return; }
      value, pos := Lst(items), next;
    } else {
      return;
    }
    var ttl := None;
    if flags % 2 != 0 {
      var ms := Codec.ReadI64(file, pos);
      if ms.None? { return; }
      ttl, pos := Some(ms.value), pos + 8;
    }
    return true, Codec.Record(key.value.value, value, ttl), pos;
  }

  /** The checks of `load` before any entry is read. */
  method Validate(file: Bytes) returns (ok: bool)
    ensures ok <==> |file| >= 17 && CrcOk(file) && At(file, 0, Codec.TextBytes(MAGIC))
  {
    if |file| < 17 { return false; }
    var dataSize := |file| - 4;
    var computed := ComputeCrc32(Raw(file), dataSize);
    var stored := Codec.ReadU32(file, dataSize).value;
    CrcDecided(file, computed);
    if computed as nat != stored { return false; }
    ok := At(file, 0, Codec.TextBytes(MAGIC));
  }

  lemma {:induction false} CrcDecided(file: Bytes, computed: bv32)
    requires |file| >= 4
    requires WordBits(computed) == Checksum(MessageBits(Raw(file)[..|file| - 4]))
    ensures CrcOk(file) <==> Codec.ReadU32(file, |file| - 4) == Some(computed as nat)
  {
    var data := file[..|file| - 4];
    assert Raw(file)[..|file| - 4] == Raw(data);
    assert Codec.ReadU32(file, |file| - 4) == Some(computed as nat) ==> Seals(file, computed);
    if CrcOk(file) {
      var w :| Seals(file, w);
      WordBitsInjective(w, computed);
    }
  }

  method Load(file: Bytes, db: Database, now: int) returns (ok: bool)
    modifies db
    ensures ok == LoadSpec(file, now).Some?
    ensures db.State() == if ok then LoadSpec(file, now).value else old(db.State())
  {
    var valid := Validate(file);
    if !valid { return false; }
    var entryCount := Codec.ReadU32(file, 9).value;
    var read, snapshot := ReadEntries(file, entryCount, now);
    if !read { return false; }
    db.LoadSnapshot(snapshot);
    return true;
  }

  method ReadEntries(file: Bytes, count: nat, now: int) returns (ok: bool, snapshot: Store)
    ensures ok == Codec.ReadAll(Codec.Decode, file, 13, count).Some?
    ensures ok ==> snapshot == RestoreAll(EMPTY, Codec.ReadAll(Codec.Decode, file, 13, count).value.value, now)
  {
    var pos := 13;
    snapshot := EMPTY;
    ghost var done: seq<Record> := [];
    PrependNothing(Codec.ReadAll(Codec.Decode, file, 13, count));
    for i := 0 to count
      invariant Codec.ReadAll(Codec.Decode, file, 13, count) ==
                Prepend(done, Codec.ReadAll(Codec.Decode, file, pos, count - i))
      invariant snapshot == RestoreAll(EMPTY, done, now)
    {
      var read, entry, next := ReadEntry(file, pos);
      if !read { return false, EMPTY; }
      PrependSnoc(done, entry, Codec.ReadAll(Codec.Decode, file, next, count - i - 1));
      RestoreSnoc(EMPTY, done, entry, now);
      pos, done := next, done + [entry];
      snapshot := EnterEntry(snapshot, entry, now);
    }
    PrependToNothing(done, pos);
    return true, snapshot;
  }

  method EnterEntry(snapshot: Store, entry: Record, now: int) returns (result: Store)
    ensures result == Restore(snapshot, entry, now)
  {
    result := snapshot;
    if entry.ttl.Some? && entry.ttl.value <= 0 { return; }
    match entry.value {
      case Str(x) => result := result.(strings := result.strings[entry.key := x]);
      case Lst(xs) => result := result.(lists := result.lists[entry.key := xs]);
    }
    if entry.ttl.Some? {
      result := result.(expiry := result.expiry[entry.key := MillisAfter(now, entry.ttl.value)]);
    }
  }

  lemma {:induction false} RestoreSnoc(s: Store, rs: seq<Record>, r: Record, now: int)
    ensures RestoreAll(s, rs + [r], now) == Restore(RestoreAll(s, rs, now), r, now)
    decreases |rs|
  {
    if rs == [] {
      assert RestoreAll(s, [r], now) == RestoreAll(Restore(s, r, now), [], now);
    } else {
      assert (rs + [r])[1..] == rs[1..] + [r];
      RestoreSnoc(Restore(s, rs[0], now), rs[1..], r, now);
    }
  }
}
