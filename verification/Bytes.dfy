/** Byte strings, decimal text and the few C++ library searches the other modules share. */
module Bytes {
  import opened Wrappers

  type byte = x: int | 0 <= x < 256
  type bytes = seq<byte>

  /** The modulus of `size_t` and `unsigned long long` on the 64-bit platforms abp targets. */
  const U64 := 0x1_0000_0000_0000_0000

  function Zeros(n: nat): (r: bytes)
    ensures |r| == n
    ensures forall i :: 0 <= i < n ==> r[i] == 0
  {
    seq(n, _ => 0)
  }

  function Repeat(s: bytes, n: nat): bytes {
    if n == 0 then [] else s + Repeat(s, n - 1)
  }

  /** `s.find(c, from)`: the first index at or after `from` holding `c`, or `|s|` for npos. */
  function Find(s: bytes, c: byte, from: nat): (r: nat)
    requires from <= |s|
    ensures from <= r <= |s|
    ensures r < |s| ==> s[r] == c
    ensures forall i :: from <= i < r ==> s[i] != c
    decreases |s| - from
  {
    if from == |s| || s[from] == c then from else Find(s, c, from + 1)
  }

  lemma FindAt(s: bytes, c: byte, from: nat, at: nat)
    requires from <= at < |s| && s[at] == c
    requires forall i :: from <= i < at ==> s[i] != c
    ensures Find(s, c, from) == at
  {
    assert s[Find(s, c, from)] == c;
  }

  predicate IsDigit(c: byte) { 0x30 <= c <= 0x39 }

  /** `std::isspace` in the C locale. */
  predicate IsSpace(c: byte) { 9 <= c <= 13 || c == 32 }

  predicate AllDigits(s: bytes) {
    forall i :: 0 <= i < |s| ==> IsDigit(s[i])
  }

  function DigitCount(s: bytes): (n: nat)
    ensures n <= |s|
  {
    if s == [] || !IsDigit(s[0]) then 0 else 1 + DigitCount(s[1..])
  }

  /** The value of a string of decimal digits. */
  function DecimalValue(s: bytes): nat
    requires AllDigits(s)
  {
    if s == [] then 0 else DecimalValue(s[..|s| - 1]) * 10 + (s[|s| - 1] - 0x30)
  }

  lemma DigitCountDigits(s: bytes)
    ensures AllDigits(s[..DigitCount(s)])
  {
    if s != [] && IsDigit(s[0]) {
      DigitCountDigits(s[1..]);
      assert s[..DigitCount(s)] == [s[0]] + s[1..][..DigitCount(s[1..])];
    }
  }

  /** Decimal text without leading zeros. */
  function Decimal(n: nat): (r: bytes)
    ensures |r| > 0
    ensures AllDigits(r)
    ensures DecimalValue(r) == n
  {
    if n < 10 then [0x30 + n] else
      var r := Decimal(n / 10) + [0x30 + n % 10];
      assert r[..|r| - 1] == Decimal(n / 10);
      r
  }

  lemma {:induction false} DigitCountWhole(digits: bytes, rest: bytes)
    requires AllDigits(digits)
    requires rest == [] || !IsDigit(rest[0])
    ensures DigitCount(digits + rest) == |digits|
  {
    if digits == [] {
      assert digits + rest == rest;
    } else {
      assert (digits + rest)[1..] == digits[1..] + rest;
      DigitCountWhole(digits[1..], rest);
    }
  }

  function SkipSpaces(s: bytes): (r: bytes)
    ensures |r| <= |s|
  {
    if s != [] && IsSpace(s[0]) then SkipSpaces(s[1..]) else s
  }

  /** `std::stoull` in base 10 (and `std::stoul`, the same width here): leading white space and a
      sign are accepted, trailing text is ignored, a minus sign negates modulo 2^64. `None` is the
      exception thrown for no digits or a magnitude of 2^64 or more. */
  function Stoull(text: bytes): (r: Option<nat>)
    ensures r.Some? ==> r.value < U64
  {
    var t := SkipSpaces(text);
    var negative := t != [] && t[0] == 0x2D;
    var u := if t != [] && (t[0] == 0x2D || t[0] == 0x2B) then t[1..] else t;
    DigitCountDigits(u);
    var magnitude := DecimalValue(u[..DigitCount(u)]);
    if DigitCount(u) == 0 || magnitude >= U64 then None
    else Some(if negative then (U64 - magnitude) % U64 else magnitude)
  }

  lemma StoullDecimal(n: nat)
    requires n < U64
    ensures Stoull(Decimal(n)) == Some(n)
  {
    var d := Decimal(n);
    DigitCountWhole(d, []);
    assert d + [] == d;
    assert d[..|d|] == d;
  }

  lemma {:induction false} SkipsAll(spaces: bytes, rest: bytes)
    requires forall i | 0 <= i < |spaces| :: 9 <= spaces[i] <= 13 || spaces[i] == 32
    requires rest != [] ==> !(9 <= rest[0] <= 13 || rest[0] == 32)
    ensures SkipSpaces(spaces + rest) == rest
  {
    if spaces == [] {
      assert spaces + rest == rest;
    } else {
      assert (spaces + rest)[1..] == spaces[1..] + rest;
      SkipsAll(spaces[1..], rest);
    }
  }

  lemma StoullParts(text: bytes, t: bytes, negative: bool, digits: bytes, rest: bytes)
    requires SkipSpaces(text) == t && negative == (t != [] && t[0] == 0x2D)
    requires (if t != [] && (t[0] == 0x2D || t[0] == 0x2B) then t[1..] else t) == digits + rest
    requires AllDigits(digits) && DigitCount(digits + rest) == |digits|
    ensures Stoull(text) == if digits == [] || DecimalValue(digits) >= U64 then None
                            else Some(if negative then (U64 - DecimalValue(digits)) % U64 else DecimalValue(digits))
  {
    hide SkipSpaces, DigitCount, DecimalValue, AllDigits;
    assert (digits + rest)[..|digits|] == digits;
  }

  /** White space, a sign, digits and anything else: the number is that of the digits, if there are any. */
  lemma StoullReads(spaces: bytes, sign: bytes, digits: bytes, rest: bytes)
    requires forall i | 0 <= i < |spaces| :: 9 <= spaces[i] <= 13 || spaces[i] == 32
    requires sign == [] || sign == [0x2B] || sign == [0x2D]
    requires forall i | 0 <= i < |digits| :: 0x30 <= digits[i] <= 0x39
    requires rest != [] ==> !(0x30 <= rest[0] <= 0x39)
    requires sign + digits == [] && rest != [] ==>
               !(9 <= rest[0] <= 13 || rest[0] == 32 || rest[0] == 0x2B || rest[0] == 0x2D)
    ensures Stoull(spaces + (sign + (digits + rest))) ==
            if digits == [] || DecimalValue(digits) >= U64 then None
            else if sign == [0x2D] then Some((U64 - DecimalValue(digits)) % U64)
            else Some(DecimalValue(digits))
  {
    hide SkipSpaces, DigitCount, DecimalValue, Stoull;
    var signed := sign + (digits + rest);
    assert signed != [] ==> signed[0] == if sign != [] then sign[0] else if digits != [] then digits[0] else rest[0];
    assert sign == [] ==> signed == digits + rest;
    assert sign != [] ==> signed[1..] == digits + rest;
    SkipsAll(spaces, signed);
    DigitCountWhole(digits, rest);
    StoullParts(spaces + signed, signed, sign == [0x2D], digits, rest);
  }
}
