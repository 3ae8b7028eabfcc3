/** The recursive-descent parser and the printer as they run: a cursor and a depth counter moved by
    loops, and an output buffer appended to. Each method is proved against the function of Json. */
module JsonParser {
  import opened Json

  datatype Result<+T> = Success(value: T) | Failure(error: Error, at: nat) {
    predicate IsFailure() { Failure? }

    function PropagateFailure<U>(): Result<U>
      requires Failure?
    {
      Failure(error, at)
    }

    function Extract(): T
      requires Success?
    {
      value
    }
  }

  /** What a method returned, having left the cursor at `pos`, is what the specification says. */
  ghost predicate Agrees<T>(text: string, pos: nat, spec: Parsed<T>, got: Result<T>)
    requires pos <= |text|
  {
    match spec
    case Ok(value, rest) => got == Success(value) && rest == text[pos..]
    case Fail(error, left) => got.Failure? && got.error == error && got.at + left == |text|
  }

  lemma DropDrop(text: string, i: nat, k: nat)
    requires i + k <= |text|
    ensures text[i..][k..] == text[i + k..]
  {
  }

  /** Setting a member from the i-th on: in place if it is this one, at the end if there is none. */
  lemma SetFrom(members: seq<Member>, i: nat, key: string, value: Value)
    requires i <= |members|
    ensures i == 0 ==> members[..i] + SetMember(members[i..], key, value) == SetMember(members, key, value)
    ensures members[..i] + SetMember(members[i..], key, value) ==
            if i == |members| then members + [Member(key, value)]
            else if members[i].key == key then members[i := Member(key, value)]
            else members[..i + 1] + SetMember(members[i + 1..], key, value)
  {
    hide SetMember;
    var rest := members[i..];
    var after := SetMember(rest, key, value);
    SetFirst(rest, key, value);
    if i == 0 { assert rest == members && [] + after == after && members[..0] == []; }
    if i < |members| {
      assert rest[1..] == members[i + 1..] && rest[0] == members[i];
      if members[i].key == key { Replaced(members, i, Member(key, value)); }
      else { Moved(members, i, SetMember(members[i + 1..], key, value)); }
    } else {
      assert rest == [] && members[..i] == members;
    }
  }

  lemma SetFirst(rest: seq<Member>, key: string, value: Value)
    ensures SetMember(rest, key, value) ==
            if rest == [] then [Member(key, value)]
            else if rest[0].key == key then [Member(key, value)] + rest[1..]
            else [rest[0]] + SetMember(rest[1..], key, value)
  {
  }

  lemma Replaced(members: seq<Member>, i: nat, m: Member)
    requires i < |members|
    ensures members[..i] + ([m] + members[i + 1..]) == members[i := m]
  {
  }

  lemma Moved(members: seq<Member>, i: nat, rest: seq<Member>)
    requires i < |members|
    ensures members[..i] + ([members[i]] + rest) == members[..i + 1] + rest
  {
  }

  lemma ItemsStep(s: string, depth: nat, items: seq<Value>)
    ensures var first := ParseValue(s, depth);
            var r := ParseItems(s, depth, items);
            if first.Fail? then r == Fail(first.error, first.left)
            else
              var next := SkipWhitespace(first.rest);
              if next != [] && next[0] == ',' then r == ParseItems(next[1..], depth, items + [first.value])
              else if next != [] && next[0] == ']' then r == Ok(Array(items + [first.value]), next[1..])
              else r == Fail(Expected(']'), |next|)
  {
    hide ParseValue, SkipWhitespace;
  }

  lemma HexNone(s: string, value: nat)
    ensures ParseHex(s, 0, value) == Ok(value, s)
  {
  }

  lemma HexStep(s: string, digits: nat, value: nat)
    requires 0 < digits <= 4
    ensures ParseHex(s, digits, value) ==
            if s == [] then Fail(UnexpectedEnd, 0)
            else if HexValue(s[0]) < 0 then Fail(InvalidUnicodeEscape, |s| - 1)
            else ParseHex(s[1..], digits - 1, value * 16 + HexValue(s[0]))
  {
  }

  class Parser {
    const text: string
    var pos: nat
    var depth: nat

    ghost predicate Valid()
      reads this
    {
      pos <= |text|
    }

    ghost function Left(): string
      requires Valid()
      reads this
    {
      text[pos..]
    }

    constructor (text: string)
      ensures Valid() && this.text == text && pos == 0 && depth == 0
    {
      this.text := text;
      pos, depth := 0, 0;
    }

    method Peek() returns (r: Result<char>)
      requires Valid()
      ensures r == if pos == |text| then Failure(UnexpectedEnd, pos) else Success(text[pos])
    {
      if pos >= |text| { return Failure(UnexpectedEnd, pos); }
      return Success(text[pos]);
    }

    method Next() returns (r: Result<char>)
      requires Valid()
      modifies this`pos
      ensures Valid()
      ensures if old(pos) == |text| then pos == old(pos) && r == Failure(UnexpectedEnd, pos)
              else pos == old(pos) + 1 && r == Success(text[old(pos)])
    {
      if pos >= |text| { return Failure(UnexpectedEnd, pos); }
      pos := pos + 1;
      return Success(text[pos - 1]);
    }

    method Consume(expected: char) returns (consumed: bool)
      requires Valid()
      modifies this`pos
      ensures Valid()
      ensures consumed == (old(pos) < |text| && text[old(pos)] == expected)
      ensures pos == old(pos) + if consumed then 1 else 0
    {
      if pos < |text| && text[pos] == expected {
        pos := pos + 1;
        return true;
      }
      return false;
    }

    method Expect(expected: char) returns (r: Result<()>)
      requires Valid()
      modifies this`pos
      ensures Valid()
      ensures if old(pos) < |text| && text[old(pos)] == expected then pos == old(pos) + 1 && r == Success(())
              else pos == old(pos) && r == Failure(Expected(expected), pos)
    {
      var consumed := Consume(expected);
      if !consumed { return Failure(Expected(expected), pos); }
      return Success(());
    }

    method SkipSpace()
      requires Valid()
      modifies this`pos
      ensures Valid() && pos >= old(pos)
      ensures Left() == SkipWhitespace(old(Left()))
    {
      while pos < |text|
        invariant old(pos) <= pos <= |text|
        invariant SkipWhitespace(Left()) == SkipWhitespace(old(Left()))
      {
        DropDrop(text, pos, 1);
        if !IsWhitespace(text[pos]) { break; }
        pos := pos + 1;
      }
    }

    method SkipDigitRun()
      requires Valid()
      modifies this`pos
      ensures Valid() && pos >= old(pos)
      ensures Left() == SkipDigits(old(Left()))
    {
      while pos < |text| && IsDigit(text[pos])
        invariant old(pos) <= pos <= |text|
        invariant SkipDigits(Left()) == SkipDigits(old(Left()))
      {
        DropDrop(text, pos, 1);
        pos := pos + 1;
      }
    }

    method MatchLiteral(literal: string) returns (matched: bool)
      requires Valid()
      modifies this`pos
      ensures Valid()
      ensures matched == (literal <= old(Left()))
      ensures pos == old(pos) + if matched then |literal| else 0
    {
      if pos + |literal| > |text| { return false; }
      if text[pos..pos + |literal|] == literal {
        pos := pos + |literal|;
        return true;
      }
      return false;
    }

    method ReadHex() returns (r: Result<nat>)
      requires Valid()
      modifies this`pos
      ensures Valid() && pos >= old(pos)
      ensures Agrees(text, pos, ParseHex(old(Left()), 4, 0), r)
    {
      hide ParseHex, HexValue;
      ghost var spec := ParseHex(Left(), 4, 0);
      var value: nat := 0;
      var i: nat := 0;
      while i < 4
        invariant i <= 4 && old(pos) <= pos <= |text|
        invariant ParseHex(Left(), 4 - i, value) == spec
      {
        ghost var s := Left();
        HexStep(s, 4 - i, value);
        var c :- Next();
        assert s[1..] == Left();
        if HexValue(c) < 0 { return Failure(InvalidUnicodeEscape, pos); }
        value := value * 16 + HexValue(c);
        i := i + 1;
      }
      HexNone(Left(), value);
      return Success(value);
    }

    /** What follows `\u`: an escape's four digits, and the low half of a surrogate pair if it is
        there. The cursor goes back when the second escape is not a low half. */
    method ReadUnicode() returns (r: Result<string>)
      requires Valid()
      modifies this`pos
      ensures Valid() && pos >= old(pos)
      ensures Agrees(text, pos, ParseUnicode(old(Left())), r)
    {
      hide ParseHex, AppendedFor;
      var codepoint: int :- ReadHex();
      if IsHighSurrogate(codepoint) && pos + 1 < |text| && text[pos] == '\\' && text[pos + 1] == 'u' {
        var savedPos := pos;
        DropDrop(text, pos, 2);
        pos := pos + 2;
        var low: int :- ReadHex();
        if IsLowSurrogate(low) {
          codepoint := 0x10000 + (codepoint - 0xD800) * 0x400 + (low - 0xDC00);
        } else {
          pos := savedPos;
        }
      }
      return Success(AppendedFor(codepoint));
    }

    method ReadString() returns (r: Result<string>)
      requires Valid()
      modifies this`pos
      ensures Valid() && pos >= old(pos)
      ensures Agrees(text, pos, ParseString(old(Left())), r)
    {
      hide ParseUnicode, Escaped;
      var _ :- Expect('"');
      assert old(Left())[1..] == Left();
      var result := "";
      while true
        invariant old(pos) < pos <= |text|
        invariant ParseChars(Left(), result) == ParseString(old(Left()))
        decreases |text| - pos
      {
        ghost var s := Left();
        DropOne(s);
        var c :- Next();
        assert s[1..] == Left();
        if c == '"' { return Success(result); }
        if c == '\\' {
          var escape :- Next();
          assert s[2..] == Left();
          if escape == 'u' {
            var appended :- ReadUnicode();
            result := result + appended;
          } else {
            if Escaped(escape) == "" { return Failure(InvalidEscape, pos); }
            result := result + Escaped(escape);
          }
        } else {
          result := result + [c];
        }
      }
    }

    method SkipFraction()
      requires Valid()
      modifies this`pos
      ensures Valid() && pos >= old(pos)
      ensures Left() == AfterFraction(old(Left()))
    {
      if pos < |text| && text[pos] == '.' {
        DropDrop(text, pos, 1);
        pos := pos + 1;
        SkipDigitRun();
      }
    }

    method SkipExponent()
      requires Valid()
      modifies this`pos
      ensures Valid() && pos >= old(pos)
      ensures Left() == AfterExponent(old(Left()))
    {
      if pos < |text| && (text[pos] == 'e' || text[pos] == 'E') {
        DropDrop(text, pos, 1);
        pos := pos + 1;
        if pos < |text| && (text[pos] == '+' || text[pos] == '-') {
          DropDrop(text, pos, 1);
          pos := pos + 1;
        }
        SkipDigitRun();
      }
    }

    method ReadNumber() returns (r: Result<Value>)
      requires Valid()
      modifies this`pos
      ensures Valid() && pos >= old(pos)
      ensures Agrees(text, pos, ParseNumber(old(Left())), r)
    {
      hide SkipDigits, DigitsValue, AfterFraction, AfterExponent, ParseNumber;
      var start := pos;
      if pos < |text| && text[pos] == '-' { pos := pos + 1; }
      if pos >= |text| || !IsDigit(text[pos]) {
        NoNumber(text, start, pos);
        return Failure(InvalidNumber, pos);
      }
      var digits := pos;
      SkipDigitRun();
      var afterDigits := pos;
      SkipFraction();
      SkipExponent();
      NumberIs(text, start, digits, afterDigits, pos);
      if pos == afterDigits {
        var magnitude: int := DigitsValue(text[digits..afterDigits]);
        if magnitude < MAX_EXACT {
          return Success(Number(if text[start] == '-' then -magnitude else magnitude));
        }
      }
      return Success(OtherNumber(text[start..pos]));
    }

    method ReadValue() returns (r: Result<Value>)
      requires Valid()
      modifies this`pos, this`depth
      ensures Valid() && pos >= old(pos) && depth >= old(depth)
      ensures r.Success? ==> depth == old(depth)
      ensures Agrees(text, pos, ParseValue(old(Left()), old(depth)), r)
      decreases |text| - pos, 2
    {
      hide ParseObject, ParseArray, ParseNumber, ParseString, SkipWhitespace;
      SkipSpace();
      var c :- Peek();
      if c == '{' { r := ReadObject(); return; }
      if c == '[' { r := ReadArray(); return; }
      if c == '"' {
        var content :- ReadString();
        return Success(String(content));
      }
      if c == 't' { r := ReadLiteral("true", Bool(true)); return; }
      if c == 'f' { r := ReadLiteral("false", Bool(false)); return; }
      if c == 'n' { r := ReadLiteral("null", Null); return; }
      r := ReadNumber();
    }

    method ReadLiteral(literal: string, value: Value) returns (r: Result<Value>)
      requires Valid() && literal != []
      modifies this`pos
      ensures Valid() && pos >= old(pos)
      ensures Agrees(text, pos, ParseLiteral(old(Left()), literal, value), r)
    {
      ghost var s := Left();
      var matched := MatchLiteral(literal);
      if !matched { return Failure(InvalidLiteral, pos); }
      assert s[|literal|..] == Left();
      return Success(value);
    }

    /** `{ ... }` with the nesting depth counted up for as long as it is being read. */
    method ReadObject() returns (r: Result<Value>)
      requires Valid() && pos < |text| && text[pos] == '{'
      modifies this`pos, this`depth
      ensures Valid() && pos >= old(pos) && depth >= old(depth)
      ensures r.Success? ==> depth == old(depth)
      ensures Agrees(text, pos, ParseObject(old(Left()), old(depth)), r)
      decreases |text| - pos, 1
    {
      depth := depth + 1;
      if depth > MAX_DEPTH { return Failure(TooDeep, pos); }
      r := ReadObjectBody();
      depth := depth - 1;
    }

    method ReadObjectBody() returns (r: Result<Value>)
      requires Valid() && pos < |text| && text[pos] == '{' && 0 < depth <= MAX_DEPTH
      modifies this`pos, this`depth
      ensures Valid() && pos >= old(pos) && depth >= old(depth)
      ensures r.Success? ==> depth == old(depth)
      ensures Agrees(text, pos, ParseObject(old(Left()), old(depth) - 1), r)
      decreases |text| - pos, 0
    {
      hide ParseValue, ParseString, SkipWhitespace, SetMember;
      DropWhole(text, pos);
      var _ := Consume('{');
      SkipSpace();
      DropWhole(text, pos);
      var closed := Consume('}');
      if closed { return Success(Object([])); }
      var builder := new ObjectBuilder();
      ghost var spec := ParseMembers(Left(), depth, []);
      var more := true;
      while more
        invariant old(pos) < pos <= |text| && depth == old(depth) && fresh(builder)
        invariant more ==> ParseMembers(Left(), depth, builder.members) == spec
        invariant !more ==> spec == Ok(Object(builder.members), Left())
        decreases more, |text| - pos
      {
        hide ParseMembers;
        more :- ReadMember(builder);
      }
      return Success(Object(builder.members));
    }

    method ReadKey() returns (r: Result<string>)
      requires Valid()
      modifies this`pos
      ensures Valid() && pos >= old(pos)
      ensures Agrees(text, pos, ParseKey(old(Left())), r)
    {
      hide ParseString, SkipWhitespace;
      SkipSpace();
      var c :- Peek();
      if c != '"' { return Failure(ExpectedKey, pos); }
      var key :- ReadString();
      SkipSpace();
      DropWhole(text, pos);
      var _ :- Expect(':');
      return Success(key);
    }

    /** One turn of the member loop: key, colon, value, and whether a comma follows. */
    method ReadMember(builder: ObjectBuilder) returns (r: Result<bool>)
      requires Valid()
      modifies this`pos, this`depth, builder
      ensures Valid() && pos >= old(pos) && depth >= old(depth)
      ensures r.Success? ==> depth == old(depth) && pos > old(pos)
      ensures var spec := ParseMembers(old(Left()), old(depth), old(builder.members));
              match r
              case Success(true) => ParseMembers(Left(), depth, builder.members) == spec
              case Success(false) => spec == Ok(Object(builder.members), Left())
              case Failure(error, at) => spec.Fail? && spec.error == error && at + spec.left == |text|
      decreases |text| - pos, 3
    {
      hide ParseValue, ParseKey, SkipWhitespace, SetMember;
      var key :- ReadKey();
      var value :- ReadValue();
      builder.Set(key, value);
      SkipSpace();
      DropWhole(text, pos);
      var another := Consume(',');
      if another { return Success(true); }
      var _ :- Expect('}');
      return Success(false);
    }

    method ReadArray() returns (r: Result<Value>)
      requires Valid() && pos < |text| && text[pos] == '['
      modifies this`pos, this`depth
      ensures Valid() && pos >= old(pos) && depth >= old(depth)
      ensures r.Success? ==> depth == old(depth)
      ensures Agrees(text, pos, ParseArray(old(Left()), old(depth)), r)
      decreases |text| - pos, 1
    {
      depth := depth + 1;
      if depth > MAX_DEPTH { return Failure(TooDeep, pos); }
      r := ReadArrayBody();
      depth := depth - 1;
    }

    method ReadArrayBody() returns (r: Result<Value>)
      requires Valid() && pos < |text| && text[pos] == '[' && 0 < depth <= MAX_DEPTH
      modifies this`pos, this`depth
      ensures Valid() && pos >= old(pos) && depth >= old(depth)
      ensures r.Success? ==> depth == old(depth)
      ensures Agrees(text, pos, ParseArray(old(Left()), old(depth) - 1), r)
      decreases |text| - pos, 0
    {
      hide ParseValue, SkipWhitespace, ParseItems;
      DropWhole(text, pos);
      var _ := Consume('[');
      SkipSpace();
      DropWhole(text, pos);
      var closed := Consume(']');
      if closed { return Success(Array([])); }
      r := ReadItems();
    }

    /** The items of an array, up to the bracket that closes it. */
    method ReadItems() returns (r: Result<Value>)
      requires Valid() && depth <= MAX_DEPTH
      modifies this`pos, this`depth
      ensures Valid() && pos >= old(pos) && depth >= old(depth)
      ensures r.Success? ==> depth == old(depth)
      ensures Agrees(text, pos, ParseItems(old(Left()), old(depth), []), r)
      decreases |text| - pos, 3
    {
      hide ParseValue, SkipWhitespace, ParseItems;
      var items: seq<Value> := [];
      ghost var spec := ParseItems(Left(), depth, []);
      while true
        invariant old(pos) <= pos <= |text| && depth == old(depth)
        invariant ParseItems(Left(), depth, items) == spec
        decreases |text| - pos
      {
        ItemsStep(Left(), depth, items);
        var value :- ReadValue();
        items := items + [value];
        SkipSpace();
        DropWhole(text, pos);
        var another := Consume(',');
        if another { continue; }
        var _ :- Expect(']');
        break;
      }
      return Success(Array(items));
    }

    method ReadDocument() returns (r: Result<Value>)
      requires Valid() && pos == 0 && depth == 0
      modifies this`pos, this`depth
      ensures match ParseDocument(text)
              case Ok(value, _) => r == Success(value)
              case Fail(error, left) => r.Failure? && r.error == error && r.at + left == |text|
    {
      hide ParseValue, SkipWhitespace;
      assert Left() == text;
      SkipSpace();
      var value :- ReadValue();
      SkipSpace();
      if pos != |text| { return Failure(TrailingData, pos); }
      return Success(value);
    }
  }

  /** An object under construction, updated in place. */
  class ObjectBuilder {
    var members: seq<Member>

    constructor ()
      ensures members == []
    {
      members := [];
    }

    /** `JsonValue::set`: replaces in place or appends. */
    method Set(key: string, value: Value)
      modifies this
      ensures members == SetMember(old(members), key, value)
    {
      hide SetMember;
      SetFrom(members, 0, key, value);
      var i := 0;
      while i < |members|
        invariant 0 <= i <= |members|
        invariant members == old(members)
        invariant SetMember(members, key, value) == members[..i] + SetMember(members[i..], key, value)
      {
        SetFrom(members, i, key, value);
        if members[i].key == key {
          members := members[i := Member(key, value)];
          return;
        }
        i := i + 1;
      }
      SetFrom(members, i, key, value);
      members := members + [Member(key, value)];
    }

    /** `JsonValue::get`: the first member's value, or null. */
    method Get(key: string) returns (value: Value)
      ensures value == Lookup(members, key)
    {
      var i := 0;
      while i < |members|
        invariant 0 <= i <= |members|
        invariant Lookup(members, key) == Lookup(members[i..], key)
      {
        if members[i].key == key { return members[i].value; }
        assert members[i..][1..] == members[i + 1..];
        i := i + 1;
      }
      return Null;
    }
  }

  /** After the sign there is no digit. */
  lemma NoNumber(text: string, start: nat, pos: nat)
    requires start <= pos <= |text|
    requires pos == if start < |text| && text[start] == '-' then start + 1 else start
    requires pos < |text| ==> !IsDigit(text[pos])
    ensures ParseNumber(text[start..]) == Fail(InvalidNumber, |text| - pos)
  {
    hide SkipDigits, DigitsValue, AfterFraction, AfterExponent;
    DropWhole(text, start);
  }

  /** The value of a literal with these digits. */
  function NumberFrom(negative: bool, whole: bool, digits: string, literal: string): Value
    requires forall i | 0 <= i < |digits| :: IsDigit(digits[i])
  {
    var magnitude: int := DigitsValue(digits);
    if whole && magnitude < MAX_EXACT then Number(if negative then -magnitude else magnitude) else OtherNumber(literal)
  }

  lemma NumberParts(s: string, t: string, u: string, rest: string)
    requires s != [] && t == if s[0] == '-' then s[1..] else s
    requires t != [] && IsDigit(t[0]) && u == SkipDigits(t) && rest == AfterExponent(AfterFraction(u))
    ensures ParseNumber(s) ==
            Ok(NumberFrom(s[0] == '-', rest == u, t[..|t| - |u|], s[..|s| - |rest|]), rest)
  {
    hide SkipDigits, DigitsValue, AfterFraction, AfterExponent;
  }

  lemma SameRest(text: string, a: nat, b: nat)
    requires a <= b <= |text|
    ensures text[a..] == text[b..] <==> a == b
  {
    if text[a..] == text[b..] { assert |text[a..]| == |text| - a && |text[b..]| == |text| - b; }
  }

  /** What the parts of a number literal amount to. */
  lemma NumberIs(text: string, start: nat, digits: nat, afterDigits: nat, pos: nat)
    requires start <= digits <= afterDigits <= pos <= |text| && digits < |text| && IsDigit(text[digits])
    requires digits == if text[start] == '-' then start + 1 else start
    requires text[afterDigits..] == SkipDigits(text[digits..])
    requires text[pos..] == AfterExponent(AfterFraction(text[afterDigits..]))
    ensures forall i | 0 <= i < afterDigits - digits :: IsDigit(text[digits..afterDigits][i])
    ensures ParseNumber(text[start..]) ==
            Ok(NumberFrom(text[start] == '-', pos == afterDigits, text[digits..afterDigits], text[start..pos]),
               text[pos..])
  {
    hide DigitsValue, AfterFraction, AfterExponent, ParseNumber, NumberFrom, SkipDigits;
    DropWhole(text, start);
    DropWhole(text, digits);
    assert text[digits..][0] == text[digits];
    SlicesAt(text, start, pos);
    SlicesAt(text, digits, afterDigits);
    SameRest(text, afterDigits, pos);
    NumberParts(text[start..], text[digits..], text[afterDigits..], text[pos..]);
  }

  lemma SlicesAt(text: string, from: nat, to: nat)
    requires from <= to <= |text|
    ensures text[from..][..|text[from..]| - |text[to..]|] == text[from..to]
    ensures forall i :: 0 <= i < to - from ==> text[from..][i] == text[from..to][i]
  {
  }

  lemma DropWhole(text: string, pos: nat)
    ensures pos < |text| ==> text[pos..][1..] == text[pos + 1..] && text[pos..][0] == text[pos]
  {
  }

  lemma DropOne(s: string)
    ensures |s| >= 2 ==> s[1..][1..] == s[2..]
  {
  }
}
