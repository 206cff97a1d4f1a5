/**
 The CRC-32 of section 8.1.1.6.2 of ITU-T V.42, which section 8 of RFC 1952
 uses too, defined by long division of polynomials over GF(2), and the shift
 register that computes it.

 A polynomial is the sequence of its coefficients, highest power first.
 */
module Polynomial {

  type Bits = seq<bool>
  type Register = r: Bits | |r| == 32 witness seq(32, i => false)

  /** x^32 + x^26 + x^23 + x^22 + x^16 + x^12 + x^11 + x^10 + x^8 + x^7 + x^5 + x^4 + x^2 + x + 1,
      without its leading coefficient. */
  const GENERATOR: Register :=
    [false, false, false, false, false, true, false, false,
     true, true, false, false, false, false, false, true,
     false, false, false, true, true, true, false, true,
     true, false, true, true, false, true, true, true]

  function Xor(a: Bits, b: Bits): (r: Bits)
    requires |a| == |b|
    ensures |r| == |a|
  {
    seq(|a|, i requires 0 <= i < |a| => a[i] != b[i])
  }

  function Zeros(n: nat): (r: Bits)
    ensures |r| == n
  {
    seq(n, i => false)
  }

  function Ones(n: nat): (r: Bits)
    ensures |r| == n
  {
    seq(n, i => true)
  }

  /** One step of long division: cancels the leading coefficient. */
  function Cancel(p: Bits): (r: Bits)
    requires |p| > 32
    ensures |r| == |p| - 1
  {
    (if p[0] then Xor(p[1..33], GENERATOR) else p[1..33]) + p[33..]
  }

  function Remainder(p: Bits): (r: Register)
    requires |p| >= 32
    decreases |p|
  {
    if |p| == 32 then p else Remainder(Cancel(p))
  }

  /** For a message M of k bits: the complement of the sum of the remainders of
      x^k (x^31 + ... + 1) and of x^32 M. */
  function Checksum(message: Bits): (r: Bits)
    ensures |r| == 32
  {
    Xor(Ones(32), Xor(Remainder(Ones(32) + Zeros(|message|)), Remainder(message + Zeros(32))))
  }

  // ---------------------------------------------------------------------
  // The shift register
  // ---------------------------------------------------------------------

  /** Multiplication by x modulo the generator. */
  function Shift(r: Register): (s: Register) {
    Cancel(r + [false])
  }

  lemma {:induction false} ShiftMoves(r: Register)
    ensures Shift(r) == if r[0] then Xor(r[1..] + [false], GENERATOR) else r[1..] + [false]
  {
    assert (r + [false])[1..33] == r[1..] + [false];
  }

  function Shifts(r: Register, n: nat): (s: Register)
    decreases n
  {
    if n == 0 then r else Shifts(Shift(r), n - 1)
  }

  function Pad(bits: Bits): (r: Register)
    requires |bits| <= 32
  {
    bits + Zeros(32 - |bits|)
  }

  /** Message bits enter the register at its leading coefficient. */
  function Feed(r: Register, message: Bits): (s: Register)
    decreases |message|
  {
    if message == [] then r else Feed(Shift(Xor(r, Pad([message[0]]))), message[1..])
  }

  lemma {:induction false} XorLaws(a: Bits, b: Bits, c: Bits)
    requires |a| == |b| == |c|
    ensures Xor(a, b) == Xor(b, a)
    ensures Xor(Xor(a, b), c) == Xor(a, Xor(b, c))
    ensures Xor(a, Zeros(|a|)) == a
    ensures Xor(Xor(a, b), b) == a
  {
  }

  lemma {:induction false} CancelAt(p: Bits, i: nat)
    requires |p| > 32 && i < |p| - 1
    ensures Cancel(p)[i] == (p[i + 1] != (i < 32 && p[0] && GENERATOR[i]))
  {
  }

  lemma {:induction false} ShiftAt(r: Register, i: nat)
    requires i < 32
    ensures Shift(r)[i] == ((i < 31 && r[i + 1]) != (r[0] && GENERATOR[i]))
  {
    CancelAt(r + [false], i);
  }

  lemma {:induction false} CancelLinear(p: Bits, q: Bits)
    requires |p| == |q| > 32
    ensures Cancel(Xor(p, q)) == Xor(Cancel(p), Cancel(q))
  {
    var pq := Xor(p, q);
    forall i | 0 <= i < |p| - 1 ensures Cancel(pq)[i] == (Cancel(p)[i] != Cancel(q)[i]) {
      CancelAt(pq, i);
      CancelAt(p, i);
      CancelAt(q, i);
    }
  }

  lemma {:induction false} RemainderLinear(p: Bits, q: Bits)
    requires |p| == |q| >= 32
    ensures Remainder(Xor(p, q)) == Xor(Remainder(p), Remainder(q))
    decreases |p|
  {
    if |p| <= 32 {
    } else {
      CancelLinear(p, q);
      RemainderLinear(Cancel(p), Cancel(q));
    }
  }

  /** Feeding a message to the register divides r x^k + x^32 M. */
  lemma {:induction false} FeedDivides(r: Register, message: Bits)
    ensures Feed(r, message) == Remainder(Xor(r + Zeros(|message|), message + Zeros(32)))
    decreases |message|
  {
    var p := Xor(r + Zeros(|message|), message + Zeros(32));
    if message == [] {
      assert p == r;
    } else {
      var rest := message[1..];
      var next := Shift(Xor(r, Pad([message[0]])));
      FeedDivides(next, rest);
      var q := Xor(next + Zeros(|rest|), rest + Zeros(32));
      forall i | 0 <= i < |q| ensures q[i] == Cancel(p)[i] {
        FeedStep(r, message, i);
      }
      assert q == Cancel(p);
    }
  }

  lemma {:induction false} FeedStep(r: Register, message: Bits, i: nat)
    requires message != [] && i < |message| + 31
    ensures
      var p := Xor(r + Zeros(|message|), message + Zeros(32));
      var next := Shift(Xor(r, Pad([message[0]])));
      Cancel(p)[i] == ((next + Zeros(|message| - 1))[i] != (message[1..] + Zeros(32))[i])
  {
    var p := Xor(r + Zeros(|message|), message + Zeros(32));
    var x := Xor(r, Pad([message[0]]));
    CancelAt(p, i);
    assert p[0] == x[0];
    assert (message + Zeros(32))[i + 1] == (message[1..] + Zeros(32))[i];
    if i < 32 {
      ShiftAt(x, i);
      assert i < 31 ==> x[i + 1] == r[i + 1];
    }
  }

  /** Starting from all ones and complementing the result gives the checksum. */
  lemma {:induction false} RegisterComputesChecksum(message: Bits)
    ensures Xor(Ones(32), Feed(Ones(32), message)) == Checksum(message)
  {
    FeedDivides(Ones(32), message);
    RemainderLinear(Ones(32) + Zeros(|message|), message + Zeros(32));
  }

  lemma {:induction false} FeedConcat(r: Register, a: Bits, b: Bits)
    ensures Feed(r, a + b) == Feed(Feed(r, a), b)
    decreases |a|
  {
    if a == [] {
      assert a + b == b;
    } else {
      assert (a + b)[1..] == a[1..] + b;
      FeedConcat(Shift(Xor(r, Pad([a[0]]))), a[1..], b);
    }
  }

  lemma {:induction false} ShiftLinear(r: Register, s: Register)
    ensures Shift(Xor(r, s)) == Xor(Shift(r), Shift(s))
  {
    assert Xor(r, s) + [false] == Xor(r + [false], s + [false]);
    CancelLinear(r + [false], s + [false]);
  }

  lemma {:induction false} ShiftsLinear(r: Register, s: Register, n: nat)
    ensures Shifts(Xor(r, s), n) == Xor(Shifts(r, n), Shifts(s, n))
    decreases n
  {
    if n == 0 {
    } else {
      ShiftLinear(r, s);
      ShiftsLinear(Shift(r), Shift(s), n - 1);
    }
  }

  /** The last coefficient of the generator is 1, so shifting can be undone. */
  lemma {:induction false} ShiftInjective(r: Register, s: Register)
    requires Shift(r) == Shift(s)
    ensures r == s
  {
    assert GENERATOR[31];
    ShiftAt(r, 31);
    ShiftAt(s, 31);
    forall i | 0 < i < 32 ensures r[i] == s[i] {
      ShiftAt(r, i - 1);
      ShiftAt(s, i - 1);
    }
  }

  lemma {:induction false} ShiftsInjective(r: Register, s: Register, n: nat)
    requires Shifts(r, n) == Shifts(s, n)
    ensures r == s
    decreases n
  {
    if n == 0 {
    } else {
      ShiftsInjective(Shift(r), Shift(s), n - 1);
      ShiftInjective(r, s);
    }
  }

  /** Up to 32 bits can be fed at once, by adding them to the register. */
  lemma {:induction false} FeedWindow(r: Register, window: Bits)
    requires |window| <= 32
    ensures Feed(r, window) == Shifts(Xor(r, Pad(window)), |window|)
    decreases |window|
  {
    if window == [] {
      assert Xor(r, Pad(window)) == r;
    } else {
      var first, rest := Pad([window[0]]), window[1..];
      var later := Pad([false] + rest);
      assert Pad(window) == Xor(first, later);
      assert Shift(later) == Pad(rest);
      XorLaws(r, first, later);
      ShiftLinear(Xor(r, first), later);
      FeedWindow(Shift(Xor(r, first)), rest);
    }
  }

  /** Coefficients that have not reached the front are only moved by shifts. */
  lemma {:induction false} ShiftsMove(y: Bits, n: nat)
    requires n + |y| == 32
    ensures Shifts(Zeros(n) + y, n) == y + Zeros(n)
  {
    ShiftsMoveBy(y, n, 0);
    assert Zeros(n) + y + Zeros(0) == Zeros(n) + y;
  }

  lemma {:induction false} ShiftsMoveBy(y: Bits, n: nat, m: nat)
    requires n + |y| + m == 32
    ensures Shifts(Zeros(n) + y + Zeros(m), n) == y + Zeros(n + m)
    decreases n
  {
    var r := Zeros(n) + y + Zeros(m);
    if n == 0 {
      assert r == y + Zeros(m);
    } else {
      assert Shift(r) == Zeros(n - 1) + y + Zeros(m + 1);
      ShiftsMoveBy(y, n - 1, m + 1);
    }
  }

  /** Eight shifts at once: look up the leading byte, move the rest. */
  lemma {:induction false} ByteAtOnce(r: Register)
    ensures Shifts(r, 8) == Xor(r[8..] + Zeros(8), Shifts(Pad(r[..8]), 8))
  {
    var low, high := Pad(r[..8]), Zeros(8) + r[8..];
    assert r == Xor(high, low);
    ShiftsLinear(high, low, 8);
    ShiftsMove(r[8..], 8);
  }

  /** Feeding a byte is a lookup on the leading byte of the sum. */
  lemma {:induction false} FeedByte(r: Register, byte: Bits, entry: Register)
    requires |byte| == 8
    requires entry == Shifts(Pad(Xor(r[..8], byte)), 8)
    ensures Feed(r, byte) == Xor(r[8..] + Zeros(8), entry)
  {
    var x := Xor(r, Pad(byte));
    FeedWindow(r, byte);
    ByteAtOnce(x);
    LeadingByte(r, byte);
  }

  /** Adding a byte to the register changes its leading eight coefficients only. */
  lemma {:induction false} LeadingByte(r: Register, byte: Bits)
    requires |byte| == 8
    ensures Xor(r, Pad(byte))[8..] == r[8..]
    ensures Xor(r, Pad(byte))[..8] == Xor(r[..8], byte)
  {
  }

  // ---------------------------------------------------------------------
  // What the checksum detects
  // ---------------------------------------------------------------------

  lemma {:induction false} FeedInjective(r: Register, s: Register, message: Bits)
    requires Feed(r, message) == Feed(s, message)
    ensures r == s
    decreases |message|
  {
    if message == [] {
    } else {
      var first := Pad([message[0]]);
      FeedInjective(Shift(Xor(r, first)), Shift(Xor(s, first)), message[1..]);
      ShiftInjective(Xor(r, first), Xor(s, first));
      XorLaws(r, first, first);
      XorLaws(s, first, first);
    }
  }

  lemma {:induction false} WindowInjective(r: Register, a: Bits, b: Bits)
    requires |a| == |b| <= 32
    requires Feed(r, a) == Feed(r, b)
    ensures a == b
  {
    FeedWindow(r, a);
    FeedWindow(r, b);
    ShiftsInjective(Xor(r, Pad(a)), Xor(r, Pad(b)), |a|);
    XorLaws(Pad(a), r, r);
    XorLaws(Pad(b), r, r);
    assert Pad(a) == Pad(b);
    assert a == Pad(a)[..|a|] == Pad(b)[..|b|] == b;
  }

  /** Two different messages of one length that agree outside 32 consecutive bits. */
  ghost predicate Burst(a: Bits, b: Bits, start: nat) {
    && |a| == |b| && a != b
    && forall i :: 0 <= i < |a| && !(start <= i < start + 32) ==> a[i] == b[i]
  }

  /** Every error burst of at most 32 bits changes the checksum. */
  lemma {:induction false} BurstDetected(a: Bits, b: Bits, start: nat)
    requires Burst(a, b, start)
    ensures Checksum(a) != Checksum(b)
  {
    var lo := if start <= |a| then start else |a|;
    var hi := if start + 32 <= |a| then start + 32 else |a|;
    var before, after := a[..lo], a[hi..];
    assert b[..lo] == before && b[hi..] == after;
    assert a == before + (a[lo..hi] + after) && b == before + (b[lo..hi] + after);
    var r := Feed(Ones(32), before);
    FeedConcat(Ones(32), before, a[lo..hi] + after);
    FeedConcat(Ones(32), before, b[lo..hi] + after);
    FeedConcat(r, a[lo..hi], after);
    FeedConcat(r, b[lo..hi], after);
    RegisterComputesChecksum(a);
    RegisterComputesChecksum(b);
    if Checksum(a) == Checksum(b) {
      XorLaws(Feed(Ones(32), a), Ones(32), Ones(32));
      XorLaws(Feed(Ones(32), b), Ones(32), Ones(32));
      FeedInjective(Feed(r, a[lo..hi]), Feed(r, b[lo..hi]), after);
      WindowInjective(r, a[lo..hi], b[lo..hi]);
    }
  }
}
