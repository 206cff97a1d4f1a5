/** The bytes of a snapshot file: integers, strings and records, written and read back. */
module Codec {
  import opened Base
  import opened Store

  newtype byte = x: int | 0 <= x < 256
  type Bytes = seq<byte>

  const TYPE_STRING: byte := 0
  const TYPE_LIST: byte := 1
  const FLAG_HAS_TTL: byte := 1

  // ---------------------------------------------------------------------
  // Writing
  // ---------------------------------------------------------------------

  function ByteOf(c: char): byte {
    (c as int % 256) as byte
  }

  function CharOf(b: byte): (c: char) {
    b as int as char
  }

  function TextBytes(s: string): (r: Bytes)
    ensures |r| == |s|
  {
    seq(|s|, i requires 0 <= i < |s| => ByteOf(s[i]))
  }

  function TextAt(file: Bytes, pos: nat, len: nat): (r: string)
    requires pos + len <= |file|
    ensures |r| == len
  {
    seq(len, i requires 0 <= i < len => CharOf(file[pos + i]))
  }

  /** The low `width` bytes of a number, most significant byte first. */
  function BigEndian(n: nat, width: nat): (r: Bytes)
    ensures |r| == width
    decreases width, n
  {
    if width == 0 then [] else BigEndian(n / 256, width - 1) + [(n % 256) as byte]
  }

  function U32(n: nat): (r: Bytes)
    ensures |r| == 4
  {
    BigEndian(n, 4)
  }

  /** A 64-bit signed number in two's complement. */
  function I64(n: int): (r: Bytes)
    ensures |r| == 8
  {
    BigEndian(n % 0x1_0000_0000_0000_0000, 8)
  }

  function Str32(s: string): (r: Bytes)
    ensures |r| == 4 + |s|
  {
    U32(|s|) + TextBytes(s)
  }

  function WriteAll<T>(write: T -> Bytes, xs: seq<T>): Bytes {
    if xs == [] then [] else write(xs[0]) + WriteAll(write, xs[1..])
  }

  /** One entry; `ttl` is the remaining time in milliseconds. */
  datatype Record = Record(key: string, value: Value, ttl: Option<int>)

  function Body(v: Value): Bytes {
    match v
    case Str(x) => Str32(x)
    case Lst(xs) => U32(|xs|) + WriteAll(Str32, xs)
  }

  function Tag(v: Value): byte {
    if v.Str? then TYPE_STRING else TYPE_LIST
  }

  function Flags(ttl: Option<int>): byte {
    if ttl.Some? then FLAG_HAS_TTL else 0
  }

  function TtlBytes(ttl: Option<int>): Bytes {
    if ttl.Some? then I64(ttl.value) else []
  }

  function Encode(r: Record): Bytes {
    [Tag(r.value), Flags(r.ttl)] + Str32(r.key) + Body(r.value) + TtlBytes(r.ttl)
  }

  // ---------------------------------------------------------------------
  // Reading
  // ---------------------------------------------------------------------

  /** A value read from a file and the position behind it. */
  datatype Read<+T> = Read(value: T, next: nat)

  function ReadBig(file: Bytes, pos: nat, width: nat): nat
    requires pos + width <= |file|
    decreases width, file
  {
    if width == 0 then 0 else ReadBig(file, pos, width - 1) * 256 + file[pos + width - 1] as nat
  }

  function ReadU32(file: Bytes, pos: nat): (r: Option<nat>)
    ensures r.Some? <==> pos + 4 <= |file|
  {
    if pos + 4 > |file| then None else Some(ReadBig(file, pos, 4))
  }

  function ReadI64(file: Bytes, pos: nat): Option<int> {
    if pos + 8 > |file| then None
    else
      var u := ReadBig(file, pos, 8);
      Some(if u < 0x8000_0000_0000_0000 then u else u - 0x1_0000_0000_0000_0000)
  }

  function ReadStr(file: Bytes, pos: nat): Option<Read<string>> {
    var len := ReadU32(file, pos);
    if len.None? || pos + 4 + len.value > |file| then None
    else Some(Read(TextAt(file, pos + 4, len.value), pos + 4 + len.value))
  }

  function ReadAll<T>(read: (Bytes, nat) -> Option<Read<T>>, file: Bytes, pos: nat, count: nat): Option<Read<seq<T>>>
    decreases count
  {
    if count == 0 then Some(Read([], pos))
    else match read(file, pos)
      case None => None
      case Some(first) =>
        match ReadAll(read, file, first.next, count - 1)
        case None => None
        case Some(rest) => Some(Read([first.value] + rest.value, rest.next))
  }

  function ReadList(file: Bytes, pos: nat): Option<Read<seq<string>>> {
    match ReadU32(file, pos)
    case None => None
    case Some(count) => ReadAll(ReadStr, file, pos + 4, count)
  }

  function ReadBody(file: Bytes, pos: nat, tag: byte): Option<Read<Value>> {
    if tag == TYPE_STRING then
      match ReadStr(file, pos)
      case None => None
      case Some(x) => Some(Read(Str(x.value), x.next))
    else if tag == TYPE_LIST then
      match ReadList(file, pos)
      case None => None
      case Some(xs) => Some(Read(Lst(xs.value), xs.next))
    else None
  }

  function ReadTtl(file: Bytes, pos: nat, flags: byte): Option<Read<Option<int>>> {
    if flags % 2 == 0 then Some(Read(None, pos))
    else match ReadI64(file, pos)
      case None => None
      case Some(ms) => Some(Read(Some(ms), pos + 8))
  }

  function Decode(file: Bytes, pos: nat): Option<Read<Record>> {
    if pos + 2 > |file| then None
    else match ReadStr(file, pos + 2)
      case None => None
      case Some(key) =>
        match ReadBody(file, key.next, file[pos])
        case None => None
        case Some(body) =>
          match ReadTtl(file, body.next, file[pos + 1])
          case None => None
          case Some(ttl) => Some(Read(Record(key.value, body.value, ttl.value), ttl.next))
  }

  // ---------------------------------------------------------------------
  // Reading back what was written
  // ---------------------------------------------------------------------

  /** `read` gives back x wherever `write` has put it in the file. */
  ghost predicate Inverse<T>(write: T -> Bytes, read: (Bytes, nat) -> Option<Read<T>>, file: Bytes, x: T) {
    forall pos: nat :: At(file, pos, write(x)) ==> read(file, pos) == Some(Read(x, pos + |write(x)|))
  }

  lemma {:induction false} AllBack<T>(write: T -> Bytes, read: (Bytes, nat) -> Option<Read<T>>,
                                      file: Bytes, pos: nat, xs: seq<T>)
    requires forall i :: 0 <= i < |xs| ==> Inverse(write, read, file, xs[i])
    requires At(file, pos, WriteAll(write, xs))
    ensures ReadAll(read, file, pos, |xs|) == Some(Read(xs, pos + |WriteAll(write, xs)|))
    decreases |xs|
  {
    if xs == [] {
    } else {
      AtConcat(file, pos, write(xs[0]), WriteAll(write, xs[1..]));
      assert Inverse(write, read, file, xs[0]);
      AllBack(write, read, file, pos + |write(xs[0])|, xs[1..]);
      assert xs == [xs[0]] + xs[1..];
    }
  }

  function Pow256(n: nat): (r: nat)
    ensures r > 0
  {
    if n == 0 then 1 else 256 * Pow256(n - 1)
  }

  lemma {:induction false} BigBack(file: Bytes, pos: nat, n: nat, width: nat)
    requires n < Pow256(width)
    requires At(file, pos, BigEndian(n, width))
    ensures ReadBig(file, pos, width) == n
    decreases width
  {
    if width == 0 {
    } else {
      AtConcat(file, pos, BigEndian(n / 256, width - 1), [(n % 256) as byte]);
      assert [(n % 256) as byte][0] == file[pos + width - 1];
      BigBack(file, pos, n / 256, width - 1);
    }
  }

  lemma {:induction false} Pow256Values()
    ensures Pow256(4) == 0x1_0000_0000
    ensures Pow256(8) == 0x1_0000_0000_0000_0000
  {
  }

  lemma {:induction false} U32Back(file: Bytes, pos: nat, n: nat)
    requires n < 0x1_0000_0000
    requires At(file, pos, U32(n))
    ensures ReadU32(file, pos) == Some(n)
  {
    Pow256Values();
    BigBack(file, pos, n, 4);
  }

  lemma {:induction false} I64Back(file: Bytes, pos: nat, n: int)
    requires -0x8000_0000_0000_0000 <= n < 0x8000_0000_0000_0000
    requires At(file, pos, I64(n))
    ensures ReadI64(file, pos) == Some(n)
  {
    Pow256Values();
    BigBack(file, pos, n % 0x1_0000_0000_0000_0000, 8);
  }

  /** A character of a `std::string` is one byte. */
  ghost predicate IsText(s: string) {
    forall i :: 0 <= i < |s| ==> s[i] as int < 256
  }

  lemma {:induction false} CharBack(c: char)
    requires c as int < 256
    ensures CharOf(ByteOf(c)) == c
  {
  }

  lemma {:induction false} StrBack(file: Bytes, pos: nat, s: string)
    requires IsText(s) && |s| < 0x1_0000_0000
    requires At(file, pos, Str32(s))
    ensures ReadStr(file, pos) == Some(Read(s, pos + |Str32(s)|))
  {
    AtConcat(file, pos, U32(|s|), TextBytes(s));
    U32Back(file, pos, |s|);
    assert TextAt(file, pos + 4, |s|) == s by {
      forall i | 0 <= i < |s| ensures TextAt(file, pos + 4, |s|)[i] == s[i] {
        assert TextBytes(s)[i] == file[pos + 4 + i];
        CharBack(s[i]);
      }
    }
  }

  ghost predicate SmallText(s: string) {
    IsText(s) && |s| < 0x1_0000_0000
  }

  lemma {:induction false} StrInverse(file: Bytes, s: string)
    requires SmallText(s)
    ensures Inverse(Str32, ReadStr, file, s)
  {
    forall pos: nat | At(file, pos, Str32(s)) ensures ReadStr(file, pos) == Some(Read(s, pos + |Str32(s)|)) {
      StrBack(file, pos, s);
    }
  }

  lemma {:induction false} ListBack(file: Bytes, pos: nat, items: seq<string>)
    requires |items| < 0x1_0000_0000 && forall i :: 0 <= i < |items| ==> SmallText(items[i])
    requires At(file, pos, U32(|items|) + WriteAll(Str32, items))
    ensures ReadList(file, pos) == Some(Read(items, pos + 4 + |WriteAll(Str32, items)|))
  {
    AtConcat(file, pos, U32(|items|), WriteAll(Str32, items));
    U32Back(file, pos, |items|);
    forall i | 0 <= i < |items| ensures Inverse(Str32, ReadStr, file, items[i]) {
      StrInverse(file, items[i]);
    }
    AllBack(Str32, ReadStr, file, pos + 4, items);
  }

  /** Every size and the remaining time fit the fields they are written to. */
  ghost predicate Fits(r: Record) {
    && SmallText(r.key)
    && (r.value.Str? ==> SmallText(r.value.text))
    && (r.value.Lst? ==>
          |r.value.items| < 0x1_0000_0000 && forall i :: 0 <= i < |r.value.items| ==> SmallText(r.value.items[i]))
    && (r.ttl.Some? ==> -0x8000_0000_0000_0000 <= r.ttl.value < 0x8000_0000_0000_0000)
  }

  lemma {:induction false} BodyBack(file: Bytes, pos: nat, v: Value)
    requires Fits(Record("", v, None))
    requires At(file, pos, Body(v))
    ensures ReadBody(file, pos, Tag(v)) == Some(Read(v, pos + |Body(v)|))
  {
    match v
    case Str(x) => StrBack(file, pos, x);
    case Lst(xs) => ListBack(file, pos, xs);
  }

  lemma {:induction false} TtlBack(file: Bytes, pos: nat, ttl: Option<int>)
    requires Fits(Record("", Str(""), ttl))
    requires At(file, pos, TtlBytes(ttl))
    ensures ReadTtl(file, pos, Flags(ttl)) == Some(Read(ttl, pos + |TtlBytes(ttl)|))
  {
    if ttl.Some? { I64Back(file, pos, ttl.value); }
  }

  /** The parts of a record, each at its place. */
  ghost predicate Laid(file: Bytes, pos: nat, r: Record, body: nat, tail: nat) {
    && pos + 2 <= |file| && file[pos] == Tag(r.value) && (file[pos + 1] % 2 == 1 <==> r.ttl.Some?)
    && At(file, pos + 2, Str32(r.key)) && body == pos + 2 + |Str32(r.key)|
    && At(file, body, Body(r.value)) && tail == body + |Body(r.value)|
    && At(file, tail, TtlBytes(r.ttl))
  }

  lemma {:induction false} FourParts(file: Bytes, pos: nat, a: Bytes, b: Bytes, c: Bytes, d: Bytes)
    requires At(file, pos, a + b + c + d)
    ensures At(file, pos, a) && At(file, pos + |a|, b) && At(file, pos + |a| + |b|, c)
    ensures At(file, pos + |a| + |b| + |c|, d)
  {
    AtConcat(file, pos, a + b + c, d);
    AtConcat(file, pos, a + b, c);
    AtConcat(file, pos, a, b);
  }

  lemma {:induction false} RecordParts(file: Bytes, pos: nat, r: Record)
    requires At(file, pos, Encode(r))
    ensures Laid(file, pos, r, pos + 2 + |Str32(r.key)|, pos + 2 + |Str32(r.key)| + |Body(r.value)|)
  {
    var head := [Tag(r.value), Flags(r.ttl)];
    FourParts(file, pos, head, Str32(r.key), Body(r.value), TtlBytes(r.ttl));
    assert head[0] == file[pos] && head[1] == file[pos + 1];
  }

  lemma {:induction false} LaidBody(file: Bytes, pos: nat, v: Value, tag: byte, tail: nat)
    requires Fits(Record("", v, None)) && At(file, pos, Body(v)) && tag == Tag(v) && tail == pos + |Body(v)|
    ensures ReadBody(file, pos, tag) == Some(Read(v, tail))
  {
    BodyBack(file, pos, v);
  }

  lemma {:induction false} LaidTtl(file: Bytes, pos: nat, ttl: Option<int>, flags: byte, next: nat)
    requires Fits(Record("", Str(""), ttl)) && At(file, pos, TtlBytes(ttl)) && (flags % 2 == 1 <==> ttl.Some?)
    requires next == pos + |TtlBytes(ttl)|
    ensures ReadTtl(file, pos, flags) == Some(Read(ttl, next))
  {
    TtlBack(file, pos, ttl);
  }

  lemma {:induction false} LaidBack(file: Bytes, pos: nat, r: Record, body: nat, tail: nat, next: nat)
    requires Fits(r) && Laid(file, pos, r, body, tail) && next == tail + |TtlBytes(r.ttl)|
    ensures Decode(file, pos) == Some(Read(r, next))
  {
    StrBack(file, pos + 2, r.key);
    LaidBody(file, body, r.value, file[pos], tail);
    LaidTtl(file, tail, r.ttl, file[pos + 1], next);
    RecordRead(file, pos, r, body, tail, next);
  }

  lemma {:induction false} RecordRead(file: Bytes, pos: nat, r: Record, body: nat, tail: nat, next: nat)
    requires pos + 2 <= |file| && ReadStr(file, pos + 2) == Some(Read(r.key, body))
    requires ReadBody(file, body, file[pos]) == Some(Read(r.value, tail))
    requires ReadTtl(file, tail, file[pos + 1]) == Some(Read(r.ttl, next))
    ensures Decode(file, pos) == Some(Read(r, next))
  {
  }

  /** A record is read back as it was written, wherever it stands in the file. */
  lemma {:induction false} RecordBack(file: Bytes, pos: nat, r: Record)
    requires Fits(r)
    requires At(file, pos, Encode(r))
    ensures Decode(file, pos) == Some(Read(r, pos + |Encode(r)|))
  {
    var body := pos + 2 + |Str32(r.key)|;
    var tail := body + |Body(r.value)|;
    RecordParts(file, pos, r);
    RecordSize(r);
    LaidBack(file, pos, r, body, tail, pos + |Encode(r)|);
  }

  lemma {:induction false} RecordSize(r: Record)
    ensures |Encode(r)| == 2 + |Str32(r.key)| + |Body(r.value)| + |TtlBytes(r.ttl)|
  {
  }

  // ---------------------------------------------------------------------
  // The format, byte by byte
  // ---------------------------------------------------------------------

  /** 32-bit numbers are four bytes, the highest first. */
  lemma {:induction false} U32Layout(n: nat)
    requires n < 0x1_0000_0000
    ensures U32(n) == [(n / 16777216) as byte, (n / 65536 % 256) as byte, (n / 256 % 256) as byte, (n % 256) as byte]
  {
    BigStep(n, 3);
    BigStep(n / 256, 2);
    BigStep(n / 256 / 256, 1);
    BigStep(n / 256 / 256 / 256, 0);
    assert n / 256 / 256 == n / 65536 && n / 256 / 256 / 256 == n / 16777216;
  }

  lemma {:induction false} BigStep(n: nat, width: nat)
    ensures BigEndian(n, width + 1) == BigEndian(n / 256, width) + [(n % 256) as byte]
  {
  }

  lemma {:induction false} FourBytes(n: nat, width: nat)
    ensures BigEndian(n, width + 4) ==
      BigEndian(n / 4294967296, width)
      + [(n / 16777216 % 256) as byte, (n / 65536 % 256) as byte, (n / 256 % 256) as byte, (n % 256) as byte]
  {
    BigStep(n, width + 3);
    BigStep(n / 256, width + 2);
    BigStep(n / 65536, width + 1);
    BigStep(n / 16777216, width);
    assert n / 256 / 256 == n / 65536 && n / 65536 / 256 == n / 16777216 && n / 16777216 / 256 == n / 4294967296;
  }

  /** 64-bit numbers are eight, a negative one counted down from 2 to the 64th. */
  lemma {:induction false} I64Layout(n: int)
    requires -0x8000_0000_0000_0000 <= n < 0x8000_0000_0000_0000
    ensures
      var m := if n < 0 then n + 0x1_0000_0000_0000_0000 else n;
      I64(n) == U32(m / 4294967296) + U32(m % 4294967296)
  {
    var m: nat := if n < 0 then n + 0x1_0000_0000_0000_0000 else n;
    assert n % 0x1_0000_0000_0000_0000 == m;
    FourBytes(m, 4);
    FourBytes(m % 4294967296, 0);
    SameLowBytes(m);
  }

  lemma {:induction false} TopByte(q: nat, r: nat)
    ensures (q * 4294967296 + r) / 16777216 == q * 256 + r / 16777216
  {
  }

  lemma {:induction false} ThirdByte(q: nat, r: nat)
    ensures (q * 4294967296 + r) / 65536 == q * 65536 + r / 65536
  {
  }

  lemma {:induction false} SecondByte(q: nat, r: nat)
    ensures (q * 4294967296 + r) / 256 == q * 16777216 + r / 256
  {
  }

  lemma {:induction false} Low256(q: nat, k: nat, y: nat)
    requires k == q * 256 || k == q * 65536 || k == q * 16777216 || k == q * 4294967296
    ensures (k + y) % 256 == y % 256
  {
  }

  lemma {:induction false} SameLowBytes(m: nat)
    ensures m / 16777216 % 256 == m % 4294967296 / 16777216 % 256
    ensures m / 65536 % 256 == m % 4294967296 / 65536 % 256
    ensures m / 256 % 256 == m % 4294967296 / 256 % 256 && m % 256 == m % 4294967296 % 256
  {
    var q, r := m / 4294967296, m % 4294967296;
    assert m == q * 4294967296 + r;
    TopByte(q, r);
    ThirdByte(q, r);
    SecondByte(q, r);
    Low256(q, q * 256, r / 16777216);
    Low256(q, q * 65536, r / 65536);
    Low256(q, q * 16777216, r / 256);
    Low256(q, q * 4294967296, r);
  }

  /** A text is its length and its characters. */
  lemma {:induction false} TextLayout(s: string)
    requires SmallText(s)
    ensures Str32(s)[..4] == U32(|s|) && |Str32(s)| == 4 + |s|
    ensures forall i :: 0 <= i < |s| ==> Str32(s)[4 + i] as int == s[i] as int
  {
  }

  /** An entry is its type, 0 for a string and 1 for a list, its flags, its key, its value and its time. */
  lemma {:induction false} EntryLayout(r: Record)
    ensures Encode(r) ==
      [if r.value.Str? then 0 else 1, if r.ttl.Some? then 1 else 0] + Str32(r.key)
      + (match r.value case Str(x) => Str32(x) case Lst(xs) => U32(|xs|) + WriteAll(Str32, xs))
      + (if r.ttl.Some? then I64(r.ttl.value) else [])
  {
  }

  /** Of the flags only the lowest bit is looked at. */
  lemma {:induction false} OtherFlagsIgnored(file: Bytes, pos: nat, r: Record, flags: byte)
    requires Fits(r) && (flags % 2 == 1 <==> r.ttl.Some?)
    requires At(file, pos, [Tag(r.value), flags] + Str32(r.key) + Body(r.value) + TtlBytes(r.ttl))
    ensures Decode(file, pos) == Some(Read(r, pos + |Encode(r)|))
  {
    var head := [Tag(r.value), flags];
    var body := pos + 2 + |Str32(r.key)|;
    FourParts(file, pos, head, Str32(r.key), Body(r.value), TtlBytes(r.ttl));
    assert head[0] == file[pos] && head[1] == file[pos + 1];
    RecordSize(r);
    LaidBack(file, pos, r, body, body + |Body(r.value)|, pos + |Encode(r)|);
  }

  /** No other type is accepted. */
  lemma {:induction false} OtherTypesRejected(file: Bytes, pos: nat)
    requires pos < |file| && file[pos] > 1
    ensures Decode(file, pos) == None
  {
  }

  lemma {:induction false} RecordInverse(file: Bytes, r: Record)
    requires Fits(r)
    ensures Inverse(Encode, Decode, file, r)
  {
    forall pos: nat | At(file, pos, Encode(r)) ensures Decode(file, pos) == Some(Read(r, pos + |Encode(r)|)) {
      RecordBack(file, pos, r);
    }
  }

  lemma {:induction false} RecordsInverse(file: Bytes, rs: seq<Record>)
    requires forall i :: 0 <= i < |rs| ==> Fits(rs[i])
    ensures forall i :: 0 <= i < |rs| ==> Inverse(Encode, Decode, file, rs[i])
  {
    forall i | 0 <= i < |rs| ensures Inverse(Encode, Decode, file, rs[i]) {
      RecordInverse(file, rs[i]);
    }
  }

  lemma {:induction false} InvertedRecordsBack(file: Bytes, pos: nat, rs: seq<Record>)
    requires forall i :: 0 <= i < |rs| ==> Inverse(Encode, Decode, file, rs[i])
    requires At(file, pos, WriteAll(Encode, rs))
    ensures ReadAll(Decode, file, pos, |rs|) == Some(Read(rs, pos + |WriteAll(Encode, rs)|))
  {
    AllBack(Encode, Decode, file, pos, rs);
  }

  /** A run of records is read back as it was written. */
  lemma {:induction false} RecordsBack(file: Bytes, pos: nat, rs: seq<Record>)
    requires forall i :: 0 <= i < |rs| ==> Fits(rs[i])
    requires At(file, pos, WriteAll(Encode, rs))
    ensures ReadAll(Decode, file, pos, |rs|) == Some(Read(rs, pos + |WriteAll(Encode, rs)|))
  {
    RecordsInverse(file, rs);
    InvertedRecordsBack(file, pos, rs);
  }
}
