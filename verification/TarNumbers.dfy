/** What a numeric header field writes down, in unbounded arithmetic, against what the 64-bit loops make of it. */
module TarNumbers {
  import opened Bytes
  import opened TarArchive
  import opened TarWriter

  function Whole256(s: bytes, value: nat): nat {
    if s == [] then value else Whole256(s[1..], value * 256 + s[0])
  }

  function Whole8(s: bytes, value: nat): nat {
    if s == [] then value
    else if s[0] == 0x20 && value == 0 then Whole8(s[1..], value)
    else if s[0] < 0x30 || s[0] > 0x37 then value
    else Whole8(s[1..], value * 8 + (s[0] - 0x30))
  }

  /** The number a field writes down. */
  function Meant(field: bytes): nat
    requires field != []
  {
    if field[0] >= 0x80 then Whole256(field[1..], field[0] - 0x80) else Whole8(field, 0)
  }

  lemma {:induction false} Base256Wraps(s: bytes, value: nat)
    ensures Base256(s, value % U64) == Whole256(s, value) % U64
    decreases |s|
  {
    if s != [] {
      var next := value * 256 + s[0];
      assert (value % U64 * 256 + s[0]) % U64 == next % U64;
      Base256Wraps(s[1..], next);
    }
  }

  /** So many more octal digits do not take a value to 2^64. */
  predicate Room(value: nat, digits: nat) {
    (value + 1) * Pow8(digits) <= U64
  }

  lemma RoomHere(value: nat, digits: nat)
    requires Room(value, digits)
    ensures value < U64
  {
  }

  lemma RoomNext(value: nat, digit: nat, digits: nat)
    requires Room(value, digits) && digits > 0 && digit < 8
    ensures Room(value * 8 + digit, digits - 1)
  {
    var p := Pow8(digits - 1);
    assert (value + 1) * (8 * p) == (value * 8 + 8) * p;
    assert (value * 8 + digit + 1) * p <= (value * 8 + 8) * p;
  }

  lemma RoomForPadding(digits: nat)
    requires Room(0, digits) && digits > 0
    ensures Room(0, digits - 1)
  {
  }

  lemma OctalTurn(s: bytes, value: nat)
    requires value < U64
    ensures s == [] ==> Octal(s, value) == Whole8(s, value) == value
    ensures s != [] && s[0] == 0x20 && value == 0 ==>
              Octal(s, value) == Octal(s[1..], value) && Whole8(s, value) == Whole8(s[1..], value)
    ensures s != [] && !(s[0] == 0x20 && value == 0) && !(0x30 <= s[0] <= 0x37) ==>
              Octal(s, value) == Whole8(s, value) == value
    ensures s != [] && 0x30 <= s[0] <= 0x37 ==>
              var next := value * 8 + (s[0] - 0x30);
              (next < U64 ==> Octal(s, value) == Octal(s[1..], next)) && Whole8(s, value) == Whole8(s[1..], next)
  {
  }

  /** 21 octal digits have no more than 63 bits, so no octal field of a header wraps. */
  lemma {:induction false} OctalNeverWraps(s: bytes, value: nat)
    requires Room(value, |s|)
    ensures value < U64 && Octal(s, value) == Whole8(s, value) < U64
    decreases |s|
  {
    hide Room, Octal, Whole8;
    RoomHere(value, |s|);
    OctalTurn(s, value);
    if s != [] {
      if s[0] == 0x20 && value == 0 {
        RoomForPadding(|s|);
        OctalNeverWraps(s[1..], value);
      } else if 0x30 <= s[0] <= 0x37 {
        var next := value * 8 + (s[0] - 0x30);
        RoomNext(value, s[0] - 0x30, |s|);
        RoomHere(next, |s| - 1);
        OctalNeverWraps(s[1..], next);
      }
    }
  }

  lemma {:induction false} PowersOf8(n: nat)
    requires n <= 21
    ensures Pow8(n) <= Pow8(21) < U64
    decreases 21 - n
  {
    if n < 21 {
      PowersOf8(n + 1);
    } else {
      assert Pow8(5) == 32768;
      assert Pow8(10) == 8 * (8 * (8 * (8 * (8 * Pow8(5)))));
      assert Pow8(15) == 8 * (8 * (8 * (8 * (8 * Pow8(10)))));
      assert Pow8(20) == 8 * (8 * (8 * (8 * (8 * Pow8(15)))));
      assert Pow8(21) == 8 * Pow8(20);
    }
  }

  /** A field reads as what it writes down, modulo 2^64: as that itself exactly if it is below 2^64. */
  lemma NumberIffFits(field: bytes)
    requires field != [] && (field[0] >= 0x80 || |field| <= 21)
    ensures Number(field) == Meant(field) % U64
    ensures Number(field) == Meant(field) <==> Meant(field) < U64
    ensures field[0] < 0x80 ==> Number(field) == Meant(field)
  {
    hide Octal, Whole8, Base256, Whole256, Pow8;
    if field[0] >= 0x80 {
      var top: nat := field[0] - 0x80;
      assert top % U64 == top;
      Base256Wraps(field[1..], top);
    } else {
      PowersOf8(|field|);
      OctalNeverWraps(field, 0);
    }
  }

  lemma {:induction false} Whole256Split(a: bytes, b: bytes, value: nat)
    ensures Whole256(a + b, value) == Whole256(b, Whole256(a, value))
    decreases |a|
  {
    if a == [] {
      assert a + b == b;
    } else {
      assert (a + b)[1..] == a[1..] + b;
      Whole256Split(a[1..], b, value * 256 + a[0]);
    }
  }

  lemma {:induction false} Whole256Bounds(s: bytes, value: nat)
    ensures value * Pow256(|s|) <= Whole256(s, value) < (value + 1) * Pow256(|s|)
    decreases |s|
  {
    if s != [] {
      var next := value * 256 + s[0];
      var p := Pow256(|s| - 1);
      Whole256Bounds(s[1..], next);
      Scaled(value, s[0], p);
    }
  }

  lemma {:induction false} Whole256Shifts(s: bytes, value: nat)
    ensures Whole256(s, value) == value * Pow256(|s|) + Whole256(s, 0)
    decreases |s|
  {
    if s != [] {
      Whole256Shifts(s[1..], value * 256 + s[0]);
      Whole256Shifts(s[1..], s[0]);
      var p := Pow256(|s| - 1);
      assert (value * 256 + s[0]) * p == value * (256 * p) + s[0] * p;
    }
  }

  lemma BigEndianIs(value: nat)
    requires value < U64
    ensures Whole256(BigEndian(value, 8), 0) == value
  {
    hide Base256, Whole256, BigEndian;
    Pow256Is();
    Base256Reads(value, 8, []);
    assert BigEndian(value, 8) + [] == BigEndian(value, 8);
    assert Base256([], value) == value by { EmptyReads(value); }
    Whole256Bounds(BigEndian(value, 8), 0);
    Base256Wraps(BigEndian(value, 8), 0);
  }

  lemma EmptyReads(value: nat)
    requires value < U64
    ensures Base256([], value) == value
  {
  }

  /** A negative number's two's complement, longer than 64 bits, reads as its low 64. */
  lemma NegativeReads(value: nat)
    requires value < U64
    ensures Number([0xFF, 0xFF, 0xFF, 0xFF] + BigEndian(value, 8)) == value
  {
    hide Whole256, Whole8, Octal, Base256, BigEndian;
    var low := BigEndian(value, 8);
    var field: bytes := [0xFF, 0xFF, 0xFF, 0xFF] + low;
    var ones: bytes := [0xFF, 0xFF, 0xFF];
    assert field[1..] == ones + low;
    Whole256Split(ones, low, 0x7F);
    var top := Whole256(ones, 0x7F);
    Whole256Shifts(low, top);
    BigEndianIs(value);
    Pow256Is();
    NumberIffFits(field);
    assert Meant(field) == top * U64 + value;
  }

  /** Every time of 64 bits, before or after 1970, is read back. */
  lemma TimeFieldReads(time: int)
    requires -0x8000_0000_0000_0000 <= time < 0x8000_0000_0000_0000
    ensures AsSigned(Number(TimeField(time))) == time
  {
    hide Number, BigEndian, OctalField, Pow8;
    PowersOf8(11);
    if 0 <= time < Pow8(11) {
      OctalFieldReads(time, 11, []);
    } else if time >= 0 {
      Base256FieldReads(time);
    } else {
      NegativeReads(time + U64);
    }
  }

  lemma Scaled(value: nat, digit: byte, p: nat)
    ensures value * (256 * p) <= (value * 256 + digit) * p
    ensures (value * 256 + digit + 1) * p <= (value + 1) * (256 * p)
  {
    assert (value * 256 + digit) * p == value * (256 * p) + digit * p;
    assert (value + 1) * (256 * p) == value * (256 * p) + 256 * p;
    assert (value * 256 + digit + 1) * p == value * (256 * p) + (digit + 1) * p;
    assert (digit + 1) * p <= 256 * p;
  }

  /** The byte form of "below 2^64" for a field of twelve bytes, like that of a size. */
  predicate TopIsZero(field: bytes)
    requires |field| == 12
  {
    field[0] < 0x80 || (field[0] == 0x80 && field[1] == field[2] == field[3] == 0)
  }

  lemma TopIffFits(field: bytes)
    requires |field| == 12
    ensures Meant(field) < U64 <==> TopIsZero(field)
  {
    if field[0] < 0x80 {
      NumberIffFits(field);
    } else {
      var top, low := field[1..4], field[4..];
      var value: nat := field[0] - 0x80;
      assert field[1..] == top + low;
      Whole256Split(top, low, value);
      Whole256Bounds(low, Whole256(top, value));
      Pow256Is();
      TopValue(top, value);
    }
  }

  lemma Pow256Is()
    ensures Pow256(8) == U64
  {
    assert Pow256(4) == 0x1_0000_0000;
    assert Pow256(8) == 256 * (256 * (256 * (256 * Pow256(4))));
  }

  lemma TopValue(top: bytes, value: nat)
    requires |top| == 3
    ensures Whole256(top, value) == 0 <==> value == 0 && top[0] == top[1] == top[2] == 0
  {
    assert Whole256(top, value) == Whole256(top[1..], value * 256 + top[0]);
    assert Whole256(top[1..], value * 256 + top[0]) == Whole256(top[1..][1..], (value * 256 + top[0]) * 256 + top[1]);
    var two := (value * 256 + top[0]) * 256 + top[1];
    assert top[1..][1..] == [top[2]];
    assert Whole256([top[2]], two) == Whole256([], two * 256 + top[2]);
  }

  /** The index takes the size of a member's header for what the header says exactly if the first byte of the field is
      below 0x80, or is 0x80 with three zero bytes after it. Any other size loses its upper bits. */
  lemma SizeReadIff(header: Header)
    ensures HeaderSize(header) == Meant(header[124..136]) <==> TopIsZero(header[124..136])
    ensures HeaderSize(header) == Meant(header[124..136]) % U64
  {
    var field := header[124..136];
    NumberIffFits(field);
    TopIffFits(field);
  }
}
