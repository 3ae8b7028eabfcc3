/** UTF-8 (RFC 3629). A C++ byte string is a `string` here, one byte a `char` below 256. */
module Utf8 {

  /** Where a reader stands inside a sequence: how many continuation bytes are due, and after four
      of the lead bytes which ones may come next (RFC 3629 section 4). */
  datatype State = Start | Need1 | Need2 | Need3 | AfterE0 | AfterED | AfterF0 | AfterF4 | Bad

  function Step(state: State, c: char): State {
    var b := c as int;
    match state
    case Start =>
      if b <= 0x7F then Start
      else if 0xC2 <= b <= 0xDF then Need1
      else if b == 0xE0 then AfterE0
      else if b == 0xED then AfterED
      else if 0xE1 <= b <= 0xEF then Need2
      else if b == 0xF0 then AfterF0
      else if 0xF1 <= b <= 0xF3 then Need3
      else if b == 0xF4 then AfterF4
      else Bad
    case Need1 => if 0x80 <= b <= 0xBF then Start else Bad
    case Need2 => if 0x80 <= b <= 0xBF then Need1 else Bad
    case Need3 => if 0x80 <= b <= 0xBF then Need2 else Bad
    case AfterE0 => if 0xA0 <= b <= 0xBF then Need1 else Bad
    case AfterED => if 0x80 <= b <= 0x9F then Need1 else Bad
    case AfterF0 => if 0x90 <= b <= 0xBF then Need2 else Bad
    case AfterF4 => if 0x80 <= b <= 0x8F then Need2 else Bad
    case Bad => Bad
  }

  function Run(state: State, s: string): State
    decreases |s|
  {
    if s == [] then state else Run(Step(state, s[0]), s[1..])
  }

  predicate WellFormed(s: string) { Run(Start, s) == Start }

  lemma {:induction false} RunConcat(state: State, a: string, b: string)
    ensures Run(state, a + b) == Run(Run(state, a), b)
    decreases |a|
  {
    if a == [] {
      assert a + b == b;
    } else {
      assert (a + b)[1..] == a[1..] + b;
      RunConcat(Step(state, a[0]), a[1..], b);
    }
  }

  lemma {:induction false} BadStaysBad(s: string)
    ensures Run(Bad, s) == Bad
    decreases |s|
  {
    if s != [] { BadStaysBad(s[1..]); }
  }

  /** Inside a sequence there is no ASCII byte: meeting one means the reader was between characters. */
  lemma AsciiOnlyAtStart(state: State, s: string)
    requires s != [] && s[0] as int <= 0x7F && Run(state, s) == Start
    ensures state == Start && Run(Start, s[1..]) == Start
  {
    BadStaysBad(s[1..]);
  }

  lemma {:induction false} AsciiIsWellFormed(s: string)
    requires forall i :: 0 <= i < |s| ==> s[i] as int <= 0x7F
    ensures WellFormed(s)
    decreases |s|
  {
    if s != [] { AsciiIsWellFormed(s[1..]); }
  }

  // ---------------------------------------------------------------- encoding

  predicate IsScalar(cp: int) { 0 <= cp < 0xD800 || 0xE000 <= cp <= 0x10FFFF }

  function Byte(b: int): char
    requires 0 <= b < 256
  {
    b as char
  }

  /** The encoding of one code point (RFC 3629 section 3). */
  function Encode(cp: int): (s: string)
    requires 0 <= cp <= 0x10FFFF
    ensures 1 <= |s| <= 4
  {
    if cp <= 0x7F then [Byte(cp)]
    else if cp <= 0x7FF then [Byte(0xC0 + cp / 0x40), Byte(0x80 + cp % 0x40)]
    else if cp <= 0xFFFF then [Byte(0xE0 + cp / 0x1000), Byte(0x80 + cp / 0x40 % 0x40), Byte(0x80 + cp % 0x40)]
    else [Byte(0xF0 + cp / 0x40000), Byte(0x80 + cp / 0x1000 % 0x40), Byte(0x80 + cp / 0x40 % 0x40),
          Byte(0x80 + cp % 0x40)]
  }

  /** The bits the bytes of a character carry: those of the lead byte, and six of each byte after it. */
  function Bits(s: string): int
    requires 1 <= |s| <= 4
  {
    var lead := s[0] as int;
    if |s| == 1 then lead
    else if |s| == 2 then lead % 0x20 * 0x40 + Low(s[1])
    else if |s| == 3 then lead % 0x10 * 0x1000 + Low(s[1]) * 0x40 + Low(s[2])
    else lead % 8 * 0x40000 + Low(s[1]) * 0x1000 + Low(s[2]) * 0x40 + Low(s[3])
  }

  function Low(c: char): int { c as int % 0x40 }

  lemma Split3(cp: int)
    requires 0 <= cp
    ensures cp == cp / 0x1000 * 0x1000 + cp / 0x40 % 0x40 * 0x40 + cp % 0x40
  {
    assert cp / 0x1000 == cp / 0x40 / 0x40;
  }

  lemma Split4(cp: int)
    requires 0 <= cp
    ensures cp == cp / 0x40000 * 0x40000 + cp / 0x1000 % 0x40 * 0x1000 + cp / 0x40 % 0x40 * 0x40 + cp % 0x40
  {
    Split3(cp);
    assert cp / 0x40000 == cp / 0x1000 / 0x40;
  }

  /** The encoding carries its code point. */
  lemma EncodeCarries(cp: int)
    requires 0 <= cp <= 0x10FFFF
    ensures Bits(Encode(cp)) == cp
  {
    if cp <= 0x7FF {
      ShortCarries(cp);
    } else if cp <= 0xFFFF {
      MiddleCarries(cp);
    } else {
      LongCarries(cp);
    }
  }

  lemma ShortCarries(cp: int)
    requires 0 <= cp <= 0x7FF
    ensures Bits(Encode(cp)) == cp
  {
    var s := Encode(cp);
    if cp > 0x7F {
      assert s[0] as int % 0x20 == cp / 0x40;
      assert Low(s[1]) == cp % 0x40;
    }
  }

  lemma MiddleCarries(cp: int)
    requires 0x7FF < cp <= 0xFFFF
    ensures Bits(Encode(cp)) == cp
  {
    var s := Encode(cp);
    Split3(cp);
    assert s[0] as int % 0x10 == cp / 0x1000;
    assert Low(s[1]) == cp / 0x40 % 0x40 && Low(s[2]) == cp % 0x40;
  }

  lemma LongCarries(cp: int)
    requires 0xFFFF < cp <= 0x10FFFF
    ensures Bits(Encode(cp)) == cp
  {
    var s := Encode(cp);
    Split4(cp);
    assert s[0] as int % 8 == cp / 0x40000;
    assert Low(s[1]) == cp / 0x1000 % 0x40 && Low(s[2]) == cp / 0x40 % 0x40 && Low(s[3]) == cp % 0x40;
  }

  predicate AllScalars(cps: seq<int>) { forall i :: 0 <= i < |cps| ==> IsScalar(cps[i]) }

  function EncodeAll(cps: seq<int>): string
    requires AllScalars(cps)
  {
    if cps == [] then [] else Encode(cps[0]) + EncodeAll(cps[1..])
  }

  lemma Run1(state: State, a: char)
    ensures Run(state, [a]) == Step(state, a)
  {
  }

  lemma Run2(state: State, a: char, b: char)
    ensures Run(state, [a, b]) == Step(Step(state, a), b)
  {
    assert [a, b][1..] == [b];
    Run1(Step(state, a), b);
  }

  lemma Run3(state: State, a: char, b: char, c: char)
    ensures Run(state, [a, b, c]) == Step(Step(Step(state, a), b), c)
  {
    assert [a, b, c][1..] == [b, c];
    Run2(Step(state, a), b, c);
  }

  lemma Run4(state: State, a: char, b: char, c: char, d: char)
    ensures Run(state, [a, b, c, d]) == Step(Step(Step(Step(state, a), b), c), d)
  {
    assert [a, b, c, d][1..] == [b, c, d];
    Run3(Step(state, a), b, c, d);
  }

  lemma EncodeWellFormed(cp: int)
    requires IsScalar(cp)
    ensures WellFormed(Encode(cp))
  {
    if cp <= 0x7FF { ShortWellFormed(cp); } else if cp <= 0xFFFF { MiddleWellFormed(cp); } else { LongWellFormed(cp); }
  }

  lemma ShortWellFormed(cp: int)
    requires IsScalar(cp) && cp <= 0x7FF
    ensures WellFormed(Encode(cp))
  {
    hide Run;
    var s := Encode(cp);
    if cp <= 0x7F { Run1(Start, s[0]); } else { Run2(Start, s[0], s[1]); }
  }

  lemma MiddleWellFormed(cp: int)
    requires IsScalar(cp) && 0x7FF < cp <= 0xFFFF
    ensures WellFormed(Encode(cp))
  {
    hide Run;
    var s := Encode(cp);
    Run3(Start, s[0], s[1], s[2]);
  }

  lemma LongWellFormed(cp: int)
    requires IsScalar(cp) && 0xFFFF < cp
    ensures WellFormed(Encode(cp))
  {
    hide Run;
    var s := Encode(cp);
    Run4(Start, s[0], s[1], s[2], s[3]);
  }

  lemma {:induction false} EncodeAllWellFormed(cps: seq<int>)
    requires AllScalars(cps)
    ensures WellFormed(EncodeAll(cps))
    decreases |cps|
  {
    if cps != [] {
      EncodeWellFormed(cps[0]);
      EncodeAllWellFormed(cps[1..]);
      RunConcat(Start, Encode(cps[0]), EncodeAll(cps[1..]));
    }
  }

  /** Inside a sequence another byte is due, and it must be one that may come. */
  lemma NextDue(state: State, s: string)
    requires Run(state, s) == Start && state != Start
    ensures s != [] && Step(state, s[0]) != Bad && Run(Step(state, s[0]), s[1..]) == Start
  {
    if s != [] { BadStaysBad(s[1..]); }
  }

  lemma Decode2(a: int, b: int) returns (cp: int)
    requires 0 <= a < 0x20 && 0 <= b < 0x40
    ensures cp == a * 0x40 + b && cp / 0x40 == a && cp % 0x40 == b
  {
    cp := a * 0x40 + b;
  }

  lemma Decode3(a: int, b: int, c: int) returns (cp: int)
    requires 0 <= a < 0x10 && 0 <= b < 0x40 && 0 <= c < 0x40
    ensures cp == a * 0x1000 + b * 0x40 + c && cp / 0x1000 == a && cp / 0x40 % 0x40 == b && cp % 0x40 == c
  {
    cp := a * 0x1000 + b * 0x40 + c;
    assert cp / 0x40 == a * 0x40 + b;
  }

  lemma Decode4(a: int, b: int, c: int, d: int) returns (cp: int)
    requires 0 <= a < 8 && 0 <= b < 0x40 && 0 <= c < 0x40 && 0 <= d < 0x40
    ensures cp == a * 0x40000 + b * 0x1000 + c * 0x40 + d
    ensures cp / 0x40000 == a && cp / 0x1000 % 0x40 == b && cp / 0x40 % 0x40 == c && cp % 0x40 == d
  {
    cp := a * 0x40000 + b * 0x1000 + c * 0x40 + d;
    assert cp / 0x40 == a * 0x1000 + b * 0x40 + c;
    assert cp / 0x1000 == a * 0x40 + b;
  }

  lemma FirstOfTwo(s: string) returns (cp: int)
    requires WellFormed(s) && s != [] && 0x80 <= s[0] as int <= 0xDF
    ensures IsScalar(cp) && Encode(cp) <= s && WellFormed(s[|Encode(cp)|..])
  {
    BadStaysBad(s[1..]);
    NextDue(Step(Start, s[0]), s[1..]);
    hide Run;
    assert s[1..][1..] == s[2..];
    cp := Decode2(s[0] as int - 0xC0, s[1] as int - 0x80);
    assert Encode(cp) == [s[0], s[1]];
  }

  lemma FirstOfThree(s: string) returns (cp: int)
    requires WellFormed(s) && s != [] && 0xE0 <= s[0] as int <= 0xEF
    ensures IsScalar(cp) && Encode(cp) <= s && WellFormed(s[|Encode(cp)|..])
  {
    BadStaysBad(s[1..]);
    var s1 := Step(Start, s[0]);
    NextDue(s1, s[1..]);
    hide Run;
    NextDue(Step(s1, s[1]), s[2..]);
    assert s[1..][1..] == s[2..] && s[2..][1..] == s[3..];
    cp := Decode3(s[0] as int - 0xE0, s[1] as int - 0x80, s[2] as int - 0x80);
    assert Encode(cp) == [s[0], s[1], s[2]];
  }

  lemma FirstOfFour(s: string) returns (cp: int)
    requires WellFormed(s) && s != [] && 0xF0 <= s[0] as int
    ensures IsScalar(cp) && Encode(cp) <= s && WellFormed(s[|Encode(cp)|..])
  {
    BadStaysBad(s[1..]);
    var s1 := Step(Start, s[0]);
    NextDue(s1, s[1..]);
    hide Run;
    var s2 := Step(s1, s[1]);
    assert s[1..][1..] == s[2..];
    NextDue(s2, s[2..]);
    assert s[2..][1..] == s[3..];
    NextDue(Step(s2, s[2]), s[3..]);
    assert s[3..][1..] == s[4..];
    cp := Decode4(s[0] as int - 0xF0, s[1] as int - 0x80, s[2] as int - 0x80, s[3] as int - 0x80);
    assert Encode(cp) == [s[0], s[1], s[2], s[3]];
  }

  /** A well-formed text starts with the encoding of a character. */
  lemma FirstCharacter(s: string) returns (cp: int)
    requires WellFormed(s) && s != []
    ensures IsScalar(cp) && Encode(cp) <= s && WellFormed(s[|Encode(cp)|..])
  {
    var b := s[0] as int;
    if b <= 0x7F { cp := b; }
    else if b <= 0xDF { cp := FirstOfTwo(s); }
    else if b <= 0xEF { cp := FirstOfThree(s); }
    else { cp := FirstOfFour(s); }
  }

  /** The reader's automaton accepts exactly the encodings of scalar values. */
  lemma {:induction false} WellFormedIsEncoded(s: string) returns (cps: seq<int>)
    requires WellFormed(s)
    ensures AllScalars(cps) && s == EncodeAll(cps)
    decreases |s|
  {
    if s == [] { return []; }
    var cp := FirstCharacter(s);
    var more := WellFormedIsEncoded(s[|Encode(cp)|..]);
    cps := [cp] + more;
    assert cps[1..] == more;
    assert s == Encode(cp) + s[|Encode(cp)|..];
  }
}
