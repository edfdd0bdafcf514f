/** Decimal integers as Rust prints and parses i64 values. */
module Decimal {
  import opened Wrappers
  import opened Bytes

  const MINUS: byte := 0x2D
  const PLUS: byte := 0x2B
  const I64_MIN := -0x8000_0000_0000_0000
  const I64_MAX := 0x7FFF_FFFF_FFFF_FFFF

  predicate IsI64(n: int) {
    I64_MIN <= n <= I64_MAX
  }

  predicate IsDigit(b: byte) {
    0x30 <= b <= 0x39
  }

  predicate AllDigits(s: seq<byte>) {
    forall k :: 0 <= k < |s| ==> IsDigit(s[k])
  }

  function Digits(n: nat): seq<byte> {
    var last := [(0x30 + n % 10) as byte];
    if n < 10 then last else Digits(n / 10) + last
  }

  function PrintInt(n: int): seq<byte> {
    if n < 0 then [MINUS] + Digits(-n) else Digits(n)
  }

  function Value(s: seq<byte>): nat
    requires AllDigits(s)
  {
    if s == [] then 0 else 10 * Value(s[..|s| - 1]) + (s[|s| - 1] - 0x30) as int
  }

  function ParseI64(s: seq<byte>): Option<int> {
    var signed := s != [] && (s[0] == MINUS || s[0] == PLUS);
    var digits := if signed then s[1..] else s;
    if digits == [] || !AllDigits(digits) then None
    else
      var n: int := if signed && s[0] == MINUS then 0 - Value(digits) else Value(digits);
      if IsI64(n) then Some(n) else None
  }

  lemma {:induction false} DigitsValue(n: nat)
    ensures Digits(n) != [] && AllDigits(Digits(n)) && Value(Digits(n)) == n
  {
    if n >= 10 {
      DigitsValue(n / 10);
      assert Digits(n)[..|Digits(n)| - 1] == Digits(n / 10);
    } else {
      assert Digits(n)[..0] == [];
    }
  }

  function Zeros(k: nat): seq<byte> {
    seq(k, i requires 0 <= i < k => 0x30 as byte)
  }

  lemma {:induction false} ZerosValue(k: nat, s: seq<byte>)
    requires AllDigits(s)
    ensures AllDigits(Zeros(k) + s) && Value(Zeros(k) + s) == Value(s)
    decreases |s|, k
  {
    var all := Zeros(k) + s;
    if s != [] {
      ZerosValue(k, s[..|s| - 1]);
      assert all[..|all| - 1] == Zeros(k) + s[..|s| - 1];
    } else if k > 0 {
      ZerosValue(k - 1, []);
      assert all == Zeros(k) && all[..k - 1] == Zeros(k - 1) + [];
    } else {
      assert all == [];
    }
  }

  /** Digits are leading zeros and the numeral that is printed for their value, which for zero may be missing. */
  lemma {:induction false} DigitsAre(s: seq<byte>) returns (k: nat)
    requires AllDigits(s)
    ensures if Value(s) == 0 then s == Zeros(k) else s == Zeros(k) + Digits(Value(s))
  {
    if s == [] {
      k := 0;
    } else {
      var front, last := s[..|s| - 1], s[|s| - 1];
      k := DigitsAre(front);
      assert s == front + [last];
      if Value(front) == 0 && Value(s) == 0 {
        k := k + 1;
        assert last == 0x30;
      }
    }
  }

  predicate Numeral(s: seq<byte>, n: int, sign: seq<byte>, k: nat) {
    && (sign == [] || sign == [PLUS] || sign == [MINUS])
    && (n != 0 ==> (sign == [MINUS] <==> n < 0))
    && s == sign + (Zeros(k) + Digits(if n < 0 then -n else n))
  }

  lemma NumeralOf(digits: seq<byte>) returns (k: nat)
    requires digits != [] && AllDigits(digits)
    ensures digits == Zeros(k) + Digits(Value(digits))
  {
    k := DigitsAre(digits);
    if Value(digits) == 0 {
      k := k - 1;
      assert Digits(0) == [0x30];
      assert Zeros(k + 1) == Zeros(k) + [0x30];
    }
  }

  lemma ParsesNumeral(s: seq<byte>, n: int, sign: seq<byte>, k: nat)
    requires Numeral(s, n, sign, k) && IsI64(n)
    ensures ParseI64(s) == Some(n)
  {
    var m: nat := if n < 0 then -n else n;
    DigitsValue(m);
    ZerosValue(k, Digits(m));
    hide Digits, Value;
    var digits := Zeros(k) + Digits(m);
    assert digits != [] && IsDigit(digits[0]);
    if sign == [] {
      assert s == digits;
    } else {
      assert s[0] == sign[0] && s[1..] == digits;
    }
  }

  /**
   * Exactly these texts parse: a sign or none, leading zeros, and the numeral
   * that is printed for the value, if an i64 holds it.
   */
  lemma ParsesIff(s: seq<byte>, n: int)
    ensures ParseI64(s) == Some(n) <==>
              && -0x8000_0000_0000_0000 <= n <= 0x7FFF_FFFF_FFFF_FFFF
              && exists sign: seq<byte>, k: nat :: Numeral(s, n, sign, k)
  {
    hide Digits, Value;
    if ParseI64(s) == Some(n) {
      var signed := s != [] && (s[0] == MINUS || s[0] == PLUS);
      var sign, digits := if signed then [s[0]] else [], if signed then s[1..] else s;
      var k := NumeralOf(digits);
      assert s == sign + digits;
      assert Numeral(s, n, sign, k);
    }
    if IsI64(n) && exists sign: seq<byte>, k: nat :: Numeral(s, n, sign, k) {
      var sign: seq<byte>, k: nat :| Numeral(s, n, sign, k);
      ParsesNumeral(s, n, sign, k);
    }
  }

  /** What is printed is the shortest text that parses to the value. */
  lemma PrintedIsShortest(s: seq<byte>, n: int)
    requires ParseI64(s) == Some(n)
    ensures |PrintInt(n)| <= |s|
  {
    ParsesIff(s, n);
    var sign: seq<byte>, k: nat :| Numeral(s, n, sign, k);
    hide Digits, Value;
  }

  lemma ParsePrinted(n: int)
    requires IsI64(n)
    ensures ParseI64(PrintInt(n)) == Some(n)
  {
    DigitsValue(if n < 0 then -n else n);
    if n < 0 { assert PrintInt(n)[1..] == Digits(-n); }
  }
}
