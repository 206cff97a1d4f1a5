/**
 Text as the protocol code handles it: decimal numbers as `std::to_string`
 writes and `std::stoi` reads them, character classes, and the search for CRLF.
 */
module Text {
  import opened Base

  const CRLF := "\r\n"

  /** `std::isspace` in the C locale. */
  predicate IsSpace(c: char) {
    c == ' ' || '\t' <= c <= '\r'
  }

  predicate IsDigit(c: char) {
    '0' <= c <= '9'
  }

  function UpperChar(c: char): char {
    if 'a' <= c <= 'z' then (c as int - 32) as char else c
  }

  function Upper(s: string): (r: string)
    ensures |r| == |s|
  {
    seq(|s|, i requires 0 <= i < |s| => UpperChar(s[i]))
  }

  // ---------------------------------------------------------------------
  // Decimal numbers
  // ---------------------------------------------------------------------

  function Digit(n: nat): (c: char)
    requires n < 10
    ensures IsDigit(c)
  {
    ('0' as int + n) as char
  }

  function Decimal(n: nat): (s: string)
    ensures s != []
  {
    if n < 10 then [Digit(n)] else Decimal(n / 10) + [Digit(n % 10)]
  }

  lemma {:induction false} DecimalDigits(n: nat)
    ensures forall i :: 0 <= i < |Decimal(n)| ==> IsDigit(Decimal(n)[i])
    decreases n
  {
    if n < 10 {
    } else {
      DecimalDigits(n / 10);
    }
  }

  /** `std::to_string`. */
  function ToString(n: int): (s: string)
    ensures s != []
  {
    if n < 0 then "-" + Decimal(-n) else Decimal(n)
  }

  function Number(digits: string): (n: int)
    requires forall i :: 0 <= i < |digits| ==> IsDigit(digits[i])
    ensures n >= 0
  {
    if digits == [] then 0
    else
      assert IsDigit(digits[|digits| - 1]);
      Number(digits[..|digits| - 1]) * 10 + (digits[|digits| - 1] as int - '0' as int)
  }

  /** How many digits `s` starts with. */
  function DigitCount(s: string): (n: nat)
    ensures n <= |s| && forall i :: 0 <= i < n ==> IsDigit(s[i])
    ensures n < |s| ==> !IsDigit(s[n])
  {
    if s == [] || !IsDigit(s[0]) then 0 else 1 + DigitCount(s[1..])
  }

  datatype Stage = Blanks | Sign | Digits

  /** Blanks, a sign, then at least one digit; what follows is ignored. */
  function Scan(s: string, stage: Stage): Option<int>
    decreases match stage case Blanks => 2 case Sign => 1 case Digits => 0, |s|
  {
    match stage
    case Blanks => if s != [] && IsSpace(s[0]) then Scan(s[1..], Blanks) else Scan(s, Sign)
    case Sign =>
      if s != [] && s[0] == '-' then Negated(Scan(s[1..], Digits))
      else if s != [] && s[0] == '+' then Scan(s[1..], Digits)
      else Scan(s, Digits)
    case Digits => if DigitCount(s) == 0 then None else Some(Number(s[..DigitCount(s)]))
  }

  function Negated(x: Option<int>): Option<int> {
    if x.Some? then Some(-x.value) else None
  }

  predicate InRange(x: int, bits: int)
    requires bits == 32 || bits == 64
  {
    if bits == 32 then -0x8000_0000 <= x < 0x8000_0000
    else -0x8000_0000_0000_0000 <= x < 0x8000_0000_0000_0000
  }

  /** `std::stoi`; nothing where it throws. */
  function Stoi(s: string): (r: Option<int>)
    ensures r.Some? ==> InRange(r.value, 32)
  {
    var r := Scan(s, Blanks);
    if r.Some? && InRange(r.value, 32) then r else None
  }

  /** `std::stoll`; nothing where it throws. */
  function Stoll(s: string): (r: Option<int>)
    ensures r.Some? ==> InRange(r.value, 64)
  {
    var r := Scan(s, Blanks);
    if r.Some? && InRange(r.value, 64) then r else None
  }

  lemma {:induction false} NumberOfDecimal(n: nat)
    requires forall i :: 0 <= i < |Decimal(n)| ==> IsDigit(Decimal(n)[i])
    ensures Number(Decimal(n)) == n
    decreases n
  {
    if n >= 10 {
      DecimalDigits(n / 10);
      var s := Decimal(n);
      assert s[..|s| - 1] == Decimal(n / 10);
      NumberOfDecimal(n / 10);
    } else {
      assert Decimal(n)[..0] == [];
    }
  }

  lemma {:induction false} DigitCountAll(s: string)
    requires forall i :: 0 <= i < |s| ==> IsDigit(s[i])
    ensures DigitCount(s) == |s|
    decreases |s|
  {
    if s == [] {
    } else {
      DigitCountAll(s[1..]);
    }
  }

  lemma {:induction false} ScanDigits(n: nat)
    ensures Scan(Decimal(n), Digits) == Some(n)
    ensures Scan(Decimal(n), Sign) == Some(n)
  {
    DecimalDigits(n);
    DigitCountAll(Decimal(n));
    NumberOfDecimal(n);
    assert Decimal(n)[..|Decimal(n)|] == Decimal(n);
    assert IsDigit(Decimal(n)[0]);
  }

  /** Printing and reading a number are inverse. */
  lemma {:induction false} ReadBack(n: int)
    ensures Scan(ToString(n), Blanks) == Some(n)
  {
    var digits := Decimal(if n < 0 then -n else n);
    ScanDigits(if n < 0 then -n else n);
    DecimalDigits(if n < 0 then -n else n);
    if n < 0 {
      assert ToString(n)[0] == '-' && ToString(n)[1..] == digits;
      assert Scan(ToString(n), Sign) == Some(n);
    } else {
      assert IsDigit(digits[0]);
    }
  }

  // ---------------------------------------------------------------------
  // Lines
  // ---------------------------------------------------------------------

  predicate CrlfAt(s: string, i: int) {
    0 <= i && i + 1 < |s| && s[i] == '\r' && s[i + 1] == '\n'
  }

  ghost predicate NoCrlf(s: string, lo: int, hi: int) {
    forall i :: lo <= i < hi ==> !CrlfAt(s, i)
  }

  /** The first CRLF at or after `start`. */
  function FindCrlf(s: string, start: nat): (r: Option<nat>)
    ensures r.Some? ==> start <= r.value && CrlfAt(s, r.value) && NoCrlf(s, start, r.value)
    ensures r.None? ==> NoCrlf(s, start, |s|)
    decreases |s| - start
  {
    if start + 1 >= |s| then None
    else if CrlfAt(s, start) then Some(start)
    else FindCrlf(s, start + 1)
  }

  lemma {:induction false} FoundAt(s: string, start: nat, i: nat)
    requires start <= i && CrlfAt(s, i) && NoCrlf(s, start, i)
    ensures FindCrlf(s, start) == Some(i)
  {
    var r := FindCrlf(s, start);
    assert r.Some? && !(r.value < i) && !(i < r.value);
  }

  /** A line without CR, and the CRLF that ends it. */
  lemma {:induction false} LineEnds(s: string, start: nat, line: string)
    requires At(s, start, line + CRLF)
    requires forall i :: 0 <= i < |line| ==> line[i] != '\r'
    ensures FindCrlf(s, start) == Some(start + |line|)
    ensures s[start..start + |line|] == line
  {
    AtConcat(s, start, line, CRLF);
    assert CRLF[0] == s[start + |line|] && CRLF[1] == s[start + |line| + 1];
    forall i | start <= i < start + |line| ensures !CrlfAt(s, i) {
      assert line[i - start] == s[i];
    }
    FoundAt(s, start, start + |line|);
  }

  lemma {:induction false} NumberHasNoCr(n: int)
    ensures forall i :: 0 <= i < |ToString(n)| ==> ToString(n)[i] != '\r'
  {
    DecimalDigits(if n < 0 then -n else n);
  }

  method SearchCrlf(buffer: string, start: nat) returns (r: Option<nat>)
    ensures r == FindCrlf(buffer, start)
  {
    var i := start;
    while i + 1 < |buffer|
      invariant start <= i
      invariant FindCrlf(buffer, start) == FindCrlf(buffer, i)
      decreases |buffer| - i
    {
      if buffer[i] == '\r' && buffer[i + 1] == '\n' { return Some(i); }
      i := i + 1;
    }
    return None;
  }
}
