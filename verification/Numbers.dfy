/** Which texts are numbers, for `std::stoi` and `std::stoll`, and how numbers are written. */
module Numbers {
  import opened Base
  import opened Text

  /** A blank, a tab, a newline, a vertical tab, a form feed or a carriage return. */
  predicate IsBlank(c: char) {
    c as int == 32 || 9 <= c as int <= 13
  }

  ghost predicate AllBlank(s: string) {
    forall i :: 0 <= i < |s| ==> IsBlank(s[i])
  }

  ghost predicate AllZero(s: string) {
    forall i :: 0 <= i < |s| ==> s[i] == '0'
  }

  predicate StartsWithDigit(s: string) {
    s != [] && '0' <= s[0] <= '9'
  }

  lemma {:induction false} BlankIsSpace(c: char)
    ensures IsSpace(c) <==> IsBlank(c)
  {
  }

  // ---------------------------------------------------------------------
  // Writing
  // ---------------------------------------------------------------------

  /** A digit is its character, more digits are written behind one another, and a minus goes before. */
  lemma {:induction false} WrittenExactly(m: int, d: int)
    requires 0 <= d < 10
    ensures ToString(d) == [(48 + d) as char]
    ensures m > 0 ==> ToString(10 * m + d) == ToString(m) + ToString(d)
    ensures m > 0 ==> ToString(-m) == "-" + ToString(m)
  {
    if m > 0 {
      assert (10 * m + d) / 10 == m && (10 * m + d) % 10 == d;
    }
  }

  // ---------------------------------------------------------------------
  // Reading
  // ---------------------------------------------------------------------

  lemma {:induction false} BlanksSkipped(b: string, s: string)
    requires AllBlank(b)
    ensures Scan(b + s, Blanks) == Scan(s, Blanks)
    decreases |b|
  {
    if b == [] {
      assert b + s == s;
    } else {
      BlankIsSpace(b[0]);
      assert (b + s)[1..] == b[1..] + s;
      BlanksSkipped(b[1..], s);
    }
  }

  lemma {:induction false} DigitsThen(digits: string, rest: string)
    requires forall i :: 0 <= i < |digits| ==> IsDigit(digits[i])
    requires !StartsWithDigit(rest)
    ensures DigitCount(digits + rest) == |digits|
    decreases |digits|
  {
    if digits == [] {
      assert digits + rest == rest;
    } else {
      assert (digits + rest)[1..] == digits[1..] + rest;
      DigitsThen(digits[1..], rest);
    }
  }

  lemma {:induction false} ZerosFirst(z: string, digits: string)
    requires AllZero(z) && forall i :: 0 <= i < |digits| ==> IsDigit(digits[i])
    requires forall i :: 0 <= i < |z + digits| ==> IsDigit((z + digits)[i])
    ensures Number(z + digits) == Number(digits)
    decreases |z| + |digits|
  {
    var all := z + digits;
    if digits == [] {
      if z != [] {
        assert all == z && all[..|all| - 1] == z[..|z| - 1] + [];
        ZerosFirst(z[..|z| - 1], []);
      }
    } else {
      assert all[..|all| - 1] == z + digits[..|digits| - 1];
      ZerosFirst(z, digits[..|digits| - 1]);
    }
  }

  lemma {:induction false} DigitsRead(z: string, n: nat, rest: string)
    requires AllZero(z) && !StartsWithDigit(rest)
    ensures Scan(z + ToString(n) + rest, Digits) == Some(n)
  {
    var digits := z + ToString(n);
    DecimalDigits(n);
    DigitsThen(digits, rest);
    assert (digits + rest)[..|digits|] == digits;
    ZerosFirst(z, ToString(n));
    NumberOfDecimal(n);
  }

  /** The sign before a number. */
  predicate IsSign(sign: string) {
    sign == "" || sign == "+" || sign == "-"
  }

  function Signed(sign: string, n: nat): int {
    if sign == "-" then 0 - n else n
  }

  lemma {:induction false} FirstDigit(z: string, n: nat, rest: string)
    requires AllZero(z)
    ensures var s := z + ToString(n) + rest; s != [] && IsDigit(s[0])
  {
    var s := z + ToString(n) + rest;
    DecimalDigits(n);
    if z == [] { assert s[0] == ToString(n)[0] && IsDigit(ToString(n)[0]); } else { assert s[0] == z[0]; }
  }

  lemma {:induction false} SignRead(sign: string, s: string, n: nat)
    requires IsSign(sign) && s != [] && IsDigit(s[0]) && Scan(s, Digits) == Some(n)
    ensures Scan(sign + s, Blanks) == Some(Signed(sign, n))
  {
    if sign == "" {
      assert sign + s == s;
    } else {
      assert (sign + s)[0] == sign[0] && (sign + s)[1..] == s;
    }
  }

  /** Blanks, a sign, any digits, and then anything else: the number, if it fits. */
  lemma {:induction false} NumberReadExactly(b: string, sign: string, z: string, n: nat, rest: string)
    requires AllBlank(b) && IsSign(sign) && AllZero(z) && !StartsWithDigit(rest)
    ensures
      var text, x := b + (sign + (z + ToString(n) + rest)), Signed(sign, n);
      && Stoi(text) == (if -2147483648 <= x <= 2147483647 then Some(x) else None)
      && Stoll(text) == (if -9223372036854775808 <= x <= 9223372036854775807 then Some(x) else None)
  {
    DigitsRead(z, n, rest);
    FirstDigit(z, n, rest);
    SignRead(sign, z + ToString(n) + rest, n);
    BlanksSkipped(b, sign + (z + ToString(n) + rest));
  }

  lemma {:induction false} NoDigitRead(sign: string, rest: string)
    requires IsSign(sign) && !StartsWithDigit(rest)
    requires sign == "" ==> rest == [] || (!IsBlank(rest[0]) && rest[0] != '+' && rest[0] != '-')
    ensures Scan(sign + rest, Blanks) == None
  {
    if sign == "" {
      assert sign + rest == rest;
      if rest != [] { BlankIsSpace(rest[0]); }
      assert DigitCount(rest) == 0;
      assert Scan(rest, Sign) == Scan(rest, Digits) == None;
    } else {
      assert (sign + rest)[0] == sign[0] && (sign + rest)[1..] == rest;
      assert DigitCount(rest) == 0;
      assert Scan(rest, Digits) == None;
      assert Scan(sign + rest, Sign) == None;
    }
  }

  /** Without a digit behind the blanks and the sign there is no number. */
  lemma {:induction false} NoNumberExactly(b: string, sign: string, rest: string)
    requires AllBlank(b) && IsSign(sign) && !StartsWithDigit(rest)
    requires sign == "" ==> rest == [] || (!IsBlank(rest[0]) && rest[0] != '+' && rest[0] != '-')
    ensures Stoi(b + (sign + rest)) == None && Stoll(b + (sign + rest)) == None
  {
    NoDigitRead(sign, rest);
    BlanksSkipped(b, sign + rest);
  }
}
