/** The table-driven CRC-32 on machine words, proved against polynomial division. */
module Crc {
  import opened Polynomial

  const POLYNOMIAL: bv32 := 0xEDB8_8320
  const CHUNK_SIZE := 4096

  // ---------------------------------------------------------------------
  // Words and bytes as coefficient sequences
  // ---------------------------------------------------------------------

  predicate HasBit(w: bv32, i: nat)
    requires i < 32
  {
    w & (1 << i) != 0
  }

  /** Bit i of a word is coefficient i of the register it stands for. */
  function WordBits(w: bv32): (r: Register) {
    seq(32, i requires 0 <= i < 32 => HasBit(w, i))
  }

  /** The bits of a byte, least significant first. */
  function ByteBits(b: bv8): (r: Bits)
    ensures |r| == 8
  {
    WordBits(b as bv32)[..8]
  }

  function MessageBits(bytes: seq<bv8>): (r: Bits)
    ensures |r| == 8 * |bytes|
  {
    if bytes == [] then [] else ByteBits(bytes[0]) + MessageBits(bytes[1..])
  }

  lemma {:induction false} SingleBit(i: nat)
    requires i < 32
    ensures (1 as bv32 << i) & ((1 as bv32 << i) - 1) == 0
    ensures 1 as bv32 << i != 0
  {
  }

  lemma {:induction false} NotTopBit(i: nat)
    requires i < 31
    ensures (1 as bv32 << i) & 0x8000_0000 == 0
  {
  }

  lemma {:induction false} NextBit(i: nat)
    requires i < 31
    ensures (1 as bv32 << (i + 1)) == (1 as bv32 << i) << 1
  {
  }

  lemma {:induction false} XorBits(x: bv32, y: bv32)
    ensures WordBits(x ^ y) == Xor(WordBits(x), WordBits(y))
  {
    forall i | 0 <= i < 32 ensures HasBit(x ^ y, i) == (HasBit(x, i) != HasBit(y, i)) {
      SingleBit(i);
    }
  }

  lemma {:induction false} MaskedShift(x: bv32, m: bv32)
    requires m & 0x8000_0000 == 0
    ensures ((x >> 1) & m != 0) == (x & (m << 1) != 0)
  {
  }

  lemma {:induction false} HalveBits(x: bv32)
    ensures WordBits(x >> 1) == WordBits(x)[1..] + [false]
  {
    var half := x >> 1;
    forall i | 0 <= i < 31 ensures HasBit(half, i) == WordBits(x)[i + 1] {
      NotTopBit(i);
      NextBit(i);
      MaskedShift(x, 1 << i);
    }
    assert !HasBit(half, 31);
  }

  lemma {:induction false} GeneratorBits()
    ensures WordBits(POLYNOMIAL) == GENERATOR
  {
  }

  lemma {:induction false} ByteBitsInjective(x: bv8, y: bv8)
    requires ByteBits(x) == ByteBits(y)
    ensures x == y
  {
    var wx, wy := x as bv32, y as bv32;
    forall i | 0 <= i < 8 ensures HasBit(wx, i) == HasBit(wy, i) {
      assert ByteBits(x)[i] == HasBit(wx, i) && ByteBits(y)[i] == HasBit(wy, i);
    }
    SameLowBits(wx, wy);
  }

  lemma {:induction false} SameLowBits(x: bv32, y: bv32)
    requires x < 256 && y < 256
    requires forall i :: 0 <= i < 8 ==> HasBit(x, i) == HasBit(y, i)
    ensures x == y
  {
    assert HasBit(x, 0) == HasBit(y, 0) && HasBit(x, 1) == HasBit(y, 1);
    assert HasBit(x, 2) == HasBit(y, 2) && HasBit(x, 3) == HasBit(y, 3);
    assert HasBit(x, 4) == HasBit(y, 4) && HasBit(x, 5) == HasBit(y, 5);
    assert HasBit(x, 6) == HasBit(y, 6) && HasBit(x, 7) == HasBit(y, 7);
  }

  lemma {:induction false} LowByteBits(x: bv32)
    ensures WordBits(x & 0xFF) == Pad(WordBits(x)[..8])
  {
    var low := x & 0xFF;
    forall i | 0 <= i < 32 ensures HasBit(low, i) == (i < 8 && HasBit(x, i)) {
      MaskAbove(i);
    }
  }

  lemma {:induction false} MaskAbove(i: nat)
    requires i < 32
    ensures i < 8 ==> (1 as bv32 << i) & 0xFF == 1 as bv32 << i
    ensures i >= 8 ==> (1 as bv32 << i) & 0xFF == 0
  {
  }

  lemma {:induction false} ShiftTwice(x: bv32)
    ensures (x >> 1) >> 1 == x >> 2 && (x >> 2) >> 2 == x >> 4 && (x >> 4) >> 4 == x >> 8
  {
  }

  lemma {:induction false} DroppedTwice(bits: Bits, once: Bits, twice: Bits, n: nat)
    requires n <= 16 && |bits| == 32
    requires once == bits[n..] + Zeros(n) && twice == once[n..] + Zeros(n)
    ensures twice == bits[2 * n..] + Zeros(2 * n)
  {
  }

  lemma {:induction false} DropTwoBits(x: bv32)
    ensures WordBits(x >> 2) == WordBits(x)[2..] + Zeros(2)
  {
    var half := x >> 1;
    ShiftTwice(x);
    HalveBits(x);
    HalveBits(half);
    assert Zeros(1) == [false];
    DroppedTwice(WordBits(x), WordBits(half), WordBits(half >> 1), 1);
  }

  lemma {:induction false} DropFourBits(x: bv32)
    ensures WordBits(x >> 4) == WordBits(x)[4..] + Zeros(4)
  {
    var quarter := x >> 2;
    ShiftTwice(x);
    DropTwoBits(x);
    DropTwoBits(quarter);
    DroppedTwice(WordBits(x), WordBits(quarter), WordBits(quarter >> 2), 2);
  }

  lemma {:induction false} DropByteBits(x: bv32)
    ensures WordBits(x >> 8) == WordBits(x)[8..] + Zeros(8)
  {
    var rest := x >> 4;
    ShiftTwice(x);
    DropFourBits(x);
    DropFourBits(rest);
    DroppedTwice(WordBits(x), WordBits(rest), WordBits(rest >> 4), 4);
  }

  lemma {:induction false} LowBytesAgree(x: bv32, y: bv32)
    requires WordBits(x) == WordBits(y)
    ensures x & 0xFF == y & 0xFF
    ensures WordBits(x >> 8) == WordBits(y >> 8)
  {
    LowByteBits(x);
    LowByteBits(y);
    DropByteBits(x);
    DropByteBits(y);
    var a, b := x & 0xFF, y & 0xFF;
    forall i | 0 <= i < 8 ensures HasBit(a, i) == HasBit(b, i) {
      assert WordBits(a)[i] == HasBit(a, i) && WordBits(b)[i] == HasBit(b, i);
    }
    SameLowBits(a, b);
  }

  lemma {:induction false} TwoBytesAgree(x: bv32, y: bv32)
    requires WordBits(x) == WordBits(y) && x < 0x1_0000 && y < 0x1_0000
    ensures x == y
  {
    LowBytesAgree(x, y);
    var a, b := x >> 8, y >> 8;
    assert a < 256 && b < 256;
    LowBytesAgree(a, b);
  }

  lemma {:induction false} ThreeBytesAgree(x: bv32, y: bv32)
    requires WordBits(x) == WordBits(y) && x < 0x100_0000 && y < 0x100_0000
    ensures x == y
  {
    LowBytesAgree(x, y);
    TwoBytesAgree(x >> 8, y >> 8);
  }

  /** A word is determined by its bits. */
  lemma {:induction false} WordBitsInjective(x: bv32, y: bv32)
    requires WordBits(x) == WordBits(y)
    ensures x == y
  {
    LowBytesAgree(x, y);
    ThreeBytesAgree(x >> 8, y >> 8);
  }

  // ---------------------------------------------------------------------
  // The code
  // ---------------------------------------------------------------------

  lemma {:induction false} LeadingBit(c: bv32)
    ensures WordBits(c)[0] == (c & 1 == 1)
  {
    assert WordBits(c)[0] == HasBit(c, 0);
  }

  lemma {:induction false} ShiftBits(c: bv32)
    ensures c & 1 == 1 ==> WordBits((c >> 1) ^ POLYNOMIAL) == Shift(WordBits(c))
    ensures c & 1 != 1 ==> WordBits(c >> 1) == Shift(WordBits(c))
  {
    HalveBits(c);
    LeadingBit(c);
    ShiftMoves(WordBits(c));
    if c & 1 == 1 {
      GeneratorBits();
      XorBits(c >> 1, POLYNOMIAL);
    }
  }

  /** One table entry: a byte, shifted through the register bit by bit. */
  method GenerateEntry(index: bv32) returns (crc: bv32)
    ensures WordBits(crc) == Shifts(WordBits(index), 8)
  {
    crc := index;
    var bit := 0;
    while bit < 8
      invariant 0 <= bit <= 8
      invariant Shifts(WordBits(crc), 8 - bit) == Shifts(WordBits(index), 8)
    {
      ShiftBits(crc);
      if crc & 1 == 1 {
        crc := (crc >> 1) ^ POLYNOMIAL;
      } else {
        crc := crc >> 1;
      }
      bit := bit + 1;
    }
  }

  ghost predicate IsTable(table: seq<bv32>) {
    |table| == 256 && forall i :: 0 <= i < 256 ==> WordBits(table[i]) == Shifts(WordBits(i as bv32), 8)
  }

  method BuildTable() returns (table: seq<bv32>)
    ensures IsTable(table)
  {
    table := [];
    for i := 0 to 256
      invariant |table| == i
      invariant forall j :: 0 <= j < i ==> WordBits(table[j]) == Shifts(WordBits(j as bv32), 8)
    {
      var entry := GenerateEntry(i as bv32);
      table := table + [entry];
    }
  }

  lemma {:induction false} LookupIndex(crc: bv32, byte: bv8)
    ensures WordBits((crc ^ (byte as bv32)) & 0xFF) == Pad(Xor(WordBits(crc)[..8], ByteBits(byte)))
  {
    var b := byte as bv32;
    LowByteBits(crc ^ b);
    XorBits(crc, b);
    assert WordBits(crc ^ b)[..8] == Xor(WordBits(crc)[..8], WordBits(b)[..8]);
  }

  lemma {:induction false} NextWord(crc: bv32, entry: bv32)
    ensures WordBits((crc >> 8) ^ entry) == Xor(WordBits(crc)[8..] + Zeros(8), WordBits(entry))
  {
    DropByteBits(crc);
    XorBits(crc >> 8, entry);
  }

  /** One table lookup advances the register by the eight bits of a byte. */
  method LookUp(table: seq<bv32>, crc: bv32, byte: bv8) returns (next: bv32)
    requires IsTable(table)
    ensures WordBits(next) == Feed(WordBits(crc), ByteBits(byte))
  {
    var index := (crc ^ (byte as bv32)) & 0xFF;
    LookupIndex(crc, byte);
    var entry := Entry(table, index);
    next := (crc >> 8) ^ entry;
    NextWord(crc, entry);
    FeedByte(WordBits(crc), ByteBits(byte), WordBits(entry));
  }

  lemma {:induction false} MessageBitsSnoc(bytes: seq<bv8>, byte: bv8)
    ensures MessageBits(bytes + [byte]) == MessageBits(bytes) + ByteBits(byte)
    decreases |bytes|
  {
    if bytes == [] {
      assert bytes + [byte] == [byte];
      assert MessageBits([byte]) == ByteBits(byte) + MessageBits([]);
    } else {
      assert (bytes + [byte])[1..] == bytes[1..] + [byte];
      MessageBitsSnoc(bytes[1..], byte);
    }
  }

  method CrcChunk(table: seq<bv32>, start: bv32, chunk: seq<bv8>) returns (crc: bv32)
    requires IsTable(table)
    ensures WordBits(crc) == Feed(WordBits(start), MessageBits(chunk))
  {
    crc := start;
    for i := 0 to |chunk|
      invariant WordBits(crc) == Feed(WordBits(start), MessageBits(chunk[..i]))
    {
      var byte := chunk[i];
      var next := LookUp(table, crc, byte);
      MessageBitsSnoc(chunk[..i], byte);
      assert chunk[..i + 1] == chunk[..i] + [byte];
      FeedConcat(WordBits(start), MessageBits(chunk[..i]), ByteBits(byte));
      crc := next;
    }
    assert chunk[..|chunk|] == chunk;
  }

  function Entry(table: seq<bv32>, index: bv32): (entry: bv32)
    requires IsTable(table) && index < 256
    ensures WordBits(entry) == Shifts(WordBits(index), 8)
  {
    assert (index as int) as bv32 == index;
    table[index as int]
  }

  lemma {:induction false} FinalXor(crc: bv32, message: Bits)
    requires WordBits(crc) == Feed(Ones(32), message)
    ensures WordBits(crc ^ 0xFFFF_FFFF) == Checksum(message)
  {
    OnesBits();
    XorBits(crc, 0xFFFF_FFFF);
    XorLaws(WordBits(crc), Ones(32), Ones(32));
    RegisterComputesChecksum(message);
  }

  lemma {:induction false} MessageBitsConcat(a: seq<bv8>, b: seq<bv8>)
    ensures MessageBits(a + b) == MessageBits(a) + MessageBits(b)
    decreases |a|
  {
    if a == [] {
      assert a + b == b;
    } else {
      assert (a + b)[1..] == a[1..] + b;
      MessageBitsConcat(a[1..], b);
    }
  }

  lemma {:induction false} FeedFile(file: seq<bv8>, lo: nat, hi: nat)
    requires lo <= hi <= |file|
    ensures Feed(Ones(32), MessageBits(file[..hi])) ==
      Feed(Feed(Ones(32), MessageBits(file[..lo])), MessageBits(file[lo..hi]))
  {
    assert file[..hi] == file[..lo] + file[lo..hi];
    MessageBitsConcat(file[..lo], file[lo..hi]);
    FeedConcat(Ones(32), MessageBits(file[..lo]), MessageBits(file[lo..hi]));
  }

  /** The register after the first `n` bytes of the file. */
  ghost predicate Register(crc: bv32, file: seq<bv8>, n: nat)
    requires n <= |file|
  {
    WordBits(crc) == Feed(Ones(32), MessageBits(file[..n]))
  }

  method CrcFurther(table: seq<bv32>, start: bv32, file: seq<bv8>, lo: nat, hi: nat) returns (crc: bv32)
    requires IsTable(table) && lo <= hi <= |file| && Register(start, file, lo)
    ensures Register(crc, file, hi)
  {
    crc := CrcChunk(table, start, file[lo..hi]);
    FeedFile(file, lo, hi);
  }

  /** Reads the first `length` bytes, or the whole file if it is shorter. */
  method ComputeCrc32(file: seq<bv8>, length: nat) returns (result: bv32)
    ensures WordBits(result) == Checksum(MessageBits(file[..if length <= |file| then length else |file|]))
  {
    var table := BuildTable();
    var crc := 0xFFFF_FFFF;
    var remaining, pos, good := length, 0, true;
    OnesBits();
    while remaining > 0 && good
      invariant pos <= |file| && remaining >= 0 && pos + remaining == length
      invariant !good ==> pos == |file| && remaining > 0
      invariant Register(crc, file, pos)
      decreases good, remaining
    {
      var toRead := if remaining <= CHUNK_SIZE then remaining else CHUNK_SIZE;
      good := pos + toRead <= |file|;
      var bytesRead := if good then toRead else |file| - pos;
      crc := CrcFurther(table, crc, file, pos, pos + bytesRead);
      remaining := remaining - bytesRead;
      pos := pos + bytesRead;
    }
    assert pos == if length <= |file| then length else |file|;
    FinalXor(crc, MessageBits(file[..pos]));
    result := crc ^ 0xFFFF_FFFF;
  }

  lemma {:induction false} OnesBits()
    ensures WordBits(0xFFFF_FFFF) == Ones(32)
  {
    forall i | 0 <= i < 32 ensures HasBit(0xFFFF_FFFF, i) {
      SingleBit(i);
    }
  }

  // ---------------------------------------------------------------------
  // The check value
  // ---------------------------------------------------------------------

  function Step(c: bv32): bv32 {
    if c & 1 == 1 then (c >> 1) ^ 0xEDB8_8320 else c >> 1
  }

  function EightSteps(c: bv32): bv32 {
    Step(Step(Step(Step(Step(Step(Step(Step(c))))))))
  }

  lemma {:induction false} StepShifts(c: bv32)
    ensures WordBits(Step(c)) == Shift(WordBits(c))
  {
    ShiftBits(c);
  }

  lemma {:induction false} TwoShifts(r: Register, n: nat)
    ensures Shifts(r, n + 2) == Shifts(Shift(Shift(r)), n)
  {
    assert Shifts(r, n + 2) == Shifts(Shift(r), n + 1);
  }

  lemma {:induction false} TwoSteps(c: bv32, n: nat)
    ensures Shifts(WordBits(c), n + 2) == Shifts(WordBits(Step(Step(c))), n)
  {
    StepShifts(c);
    StepShifts(Step(c));
    TwoShifts(WordBits(c), n);
  }

  lemma {:induction false} EightStepsShift(c: bv32)
    ensures WordBits(EightSteps(c)) == Shifts(WordBits(c), 8)
  {
    var d := Step(Step(c));
    var e := Step(Step(d));
    var f := Step(Step(e));
    TwoSteps(c, 6);
    TwoSteps(d, 4);
    TwoSteps(e, 2);
    TwoSteps(f, 0);
  }

  lemma {:induction false} ByteFed(crc: bv32, byte: bv8)
    ensures WordBits((crc >> 8) ^ EightSteps((crc ^ (byte as bv32)) & 0xFF)) == Feed(WordBits(crc), ByteBits(byte))
  {
    var index := (crc ^ (byte as bv32)) & 0xFF;
    LookupIndex(crc, byte);
    EightStepsShift(index);
    NextWord(crc, EightSteps(index));
    FeedByte(WordBits(crc), ByteBits(byte), WordBits(EightSteps(index)));
  }

  lemma {:induction false} FedMore(bytes: seq<bv8>, byte: bv8, crc: bv32, next: bv32)
    requires WordBits(crc) == Feed(Ones(32), MessageBits(bytes))
    requires next == (crc >> 8) ^ EightSteps((crc ^ (byte as bv32)) & 0xFF)
    ensures WordBits(next) == Feed(Ones(32), MessageBits(bytes + [byte]))
  {
    ByteFed(crc, byte);
    MessageBitsSnoc(bytes, byte);
    FeedConcat(Ones(32), MessageBits(bytes), ByteBits(byte));
  }

  lemma {:induction false} CheckStart() returns (bytes: seq<bv8>)
    ensures bytes == [0x31, 0x32, 0x33] && WordBits(0x77B7_9C2D) == Feed(Ones(32), MessageBits(bytes))
  {
    OnesBits();
    FedMore([], 0x31, 0xFFFF_FFFF, 0x7C23_1048);
    FedMore([0x31], 0x32, 0x7C23_1048, 0xB0AC_BB32);
    FedMore([0x31, 0x32], 0x33, 0xB0AC_BB32, 0x77B7_9C2D);
    bytes := [0x31, 0x32, 0x33];
    assert [] + [0x31] == [0x31] && [0x31] + [0x32] == [0x31, 0x32] && [0x31, 0x32] + [0x33] == bytes;
  }

  lemma {:induction false} CheckMiddle() returns (bytes: seq<bv8>)
    ensures bytes == [0x31, 0x32, 0x33, 0x34, 0x35, 0x36] && WordBits(0xF68D_2C9E) == Feed(Ones(32), MessageBits(bytes))
  {
    var start := CheckStart();
    FedMore(start, 0x34, 0x77B7_9C2D, 0x641C_1F5C);
    FedMore(start + [0x34], 0x35, 0x641C_1F5C, 0x340A_C5E3);
    FedMore(start + [0x34] + [0x35], 0x36, 0x340A_C5E3, 0xF68D_2C9E);
    bytes := start + [0x34] + [0x35] + [0x36];
  }

  /** The checksum of the nine digits is the check value of CRC-32. */
  lemma {:induction false} CheckValue()
    ensures WordBits(0xCBF4_3926) == Checksum(MessageBits([0x31, 0x32, 0x33, 0x34, 0x35, 0x36, 0x37, 0x38, 0x39]))
  {
    var start := CheckMiddle();
    FedMore(start, 0x37, 0xF68D_2C9E, 0xAFFC_9660);
    FedMore(start + [0x37], 0x38, 0xAFFC_9660, 0x651F_2550);
    FedMore(start + [0x37] + [0x38], 0x39, 0x651F_2550, 0x340B_C6D9);
    var bytes := start + [0x37] + [0x38] + [0x39];
    FinalXor(0x340B_C6D9, MessageBits(bytes));
    assert bytes == [0x31, 0x32, 0x33, 0x34, 0x35, 0x36, 0x37, 0x38, 0x39];
  }

  // ---------------------------------------------------------------------
  // Changed bytes
  // ---------------------------------------------------------------------

  lemma {:induction false} MessageBitsAt(bytes: seq<bv8>, i: nat)
    requires i < 8 * |bytes|
    ensures MessageBits(bytes)[i] == ByteBits(bytes[i / 8])[i % 8]
    decreases |bytes|
  {
    if i < 8 {
    } else {
      MessageBitsAt(bytes[1..], i - 8);
    }
  }

  lemma {:induction false} MessageBitsInjective(a: seq<bv8>, b: seq<bv8>)
    requires MessageBits(a) == MessageBits(b)
    ensures a == b
    decreases |a|
  {
    if a == [] || b == [] {
    } else {
      assert ByteBits(a[0]) == MessageBits(a)[..8] == MessageBits(b)[..8] == ByteBits(b[0]);
      assert MessageBits(a[1..]) == MessageBits(a)[8..] == MessageBits(b)[8..] == MessageBits(b[1..]);
      ByteBitsInjective(a[0], b[0]);
      MessageBitsInjective(a[1..], b[1..]);
    }
  }

  /** A change of some of at most four consecutive bytes is a burst. */
  lemma {:induction false} FourBytesAreBurst(a: seq<bv8>, b: seq<bv8>, first: nat)
    requires |a| == |b| && a != b
    requires forall i :: 0 <= i < |a| && !(first <= i < first + 4) ==> a[i] == b[i]
    ensures Burst(MessageBits(a), MessageBits(b), 8 * first)
  {
    forall i | 0 <= i < 8 * |a| && !(8 * first <= i < 8 * first + 32)
      ensures MessageBits(a)[i] == MessageBits(b)[i]
    {
      MessageBitsAt(a, i);
      MessageBitsAt(b, i);
    }
    if MessageBits(a) == MessageBits(b) {
      MessageBitsInjective(a, b);
    }
  }
}
