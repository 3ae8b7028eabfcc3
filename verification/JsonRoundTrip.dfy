/** Parsing undoes printing, for every indentation. */
module JsonRoundTrip {
  import opened Json
  import Utf8

  // ---------------------------------------------------------------- what must hold of a value

  /** No object has two members of one key. */
  predicate DistinctKeys(v: Value) {
    match v
    case Array(items) => forall i :: 0 <= i < |items| ==> DistinctKeys(items[i])
    case Object(members) =>
      (forall i :: 0 <= i < |members| ==> DistinctKeys(members[i].value)) && KeysDiffer(members)
    case _ => true
  }

  predicate KeysDiffer(members: seq<Member>) {
    forall i, j :: 0 <= i < j < |members| ==> members[i].key != members[j].key
  }

  /** How many containers are nested inside each other. */
  function Nesting(v: Value): nat {
    match v
    case Array(items) => 1 + NestingOfItems(items)
    case Object(members) => 1 + NestingOfMembers(members)
    case _ => 0
  }

  function NestingOfItems(items: seq<Value>): (n: nat)
    ensures forall i :: 0 <= i < |items| ==> Nesting(items[i]) <= n
  {
    if items == [] then 0 else
      var rest := NestingOfItems(items[1..]);
      if Nesting(items[0]) > rest then Nesting(items[0]) else rest
  }

  function NestingOfMembers(members: seq<Member>): (n: nat)
    ensures forall i :: 0 <= i < |members| ==> Nesting(members[i].value) <= n
  {
    if members == [] then 0 else
      var rest := NestingOfMembers(members[1..]);
      if Nesting(members[0].value) > rest then Nesting(members[0].value) else rest
  }

  /** A number's text ends where this follows. */
  predicate EndsNumber(rest: string) {
    rest == [] || (!IsDigit(rest[0]) && rest[0] != '.' && rest[0] != 'e' && rest[0] != 'E')
  }

  // ---------------------------------------------------------------- white space

  lemma {:induction false} SkipsSpaces(n: nat, rest: string)
    ensures SkipWhitespace(Spaces(n) + rest) == SkipWhitespace(rest)
  {
    if n == 0 {
      assert Spaces(0) + rest == rest;
    } else {
      assert (Spaces(n) + rest)[1..] == Spaces(n - 1) + rest;
      SkipsSpaces(n - 1, rest);
    }
  }

  lemma SkipsLineBreak(indent: int, level: nat, rest: string)
    ensures SkipWhitespace(LineBreak(indent, level) + rest) == SkipWhitespace(rest)
  {
    if indent > 0 {
      var spaces := Spaces(indent * level);
      assert ("\n" + spaces + rest)[1..] == spaces + rest;
      SkipsSpaces(indent * level, rest);
    } else {
      assert "" + rest == rest;
    }
  }

  // ---------------------------------------------------------------- strings

  lemma HexDigitReads(n: int)
    requires 0 <= n < 16
    ensures HexValue(HexDigit(n)) == n
  {
  }

  /** The printer's escape for a control character is read as that character. */
  lemma UnicodeEscapeReads(c: char, rest: string)
    requires c as int < 0x20
    ensures ParseUnicode(['0', '0', HexDigit(c as int / 16), HexDigit(c as int % 16)] + rest) == Ok([c], rest)
  {
    var high := HexDigit(c as int / 16);
    var low := HexDigit(c as int % 16);
    HexDigitReads(c as int / 16);
    HexDigitReads(c as int % 16);
    var s := ['0', '0', high, low] + rest;
    assert s[1..] == ['0', high, low] + rest;
    assert s[1..][1..] == [high, low] + rest;
    assert s[1..][1..][1..] == [low] + rest;
    assert s[1..][1..][1..][1..] == rest;
    assert ParseHex(s[1..][1..][1..], 1, c as int / 16) == Ok(c as int, rest) by {
      assert ParseHex(rest, 0, c as int) == Ok(c as int, rest);
    }
    assert ParseHex(s[1..][1..], 2, 0) == Ok(c as int, rest);
    assert ParseHex(s[1..], 3, 0) == Ok(c as int, rest);
    assert ParseHex(s, 4, 0) == Ok(c as int, rest);
  }

  /** One character's escape is read as that character. */
  lemma EscapeReads(c: char, rest: string, result: string)
    ensures ParseChars(EscapeChar(c) + rest, result) == ParseChars(rest, result + [c])
  {
    var e := EscapeChar(c);
    var s := e + rest;
    if |e| == 1 {
      assert s[1..] == rest;
    } else if |e| == 2 {
      assert s[2..] == rest;
      assert Escaped(e[1]) == [c];
    } else {
      assert s[2..] == ['0', '0', HexDigit(c as int / 16), HexDigit(c as int % 16)] + rest;
      UnicodeEscapeReads(c, rest);
    }
  }

  /** What is escaped: quotes, backslashes and control characters, and nothing else (RFC 8259 section 7). */
  lemma EscapesExactly(c: char)
    ensures EscapeChar(c) == [c] <==> c as int >= 0x20 && c != '"' && c != '\\'
    ensures EscapeChar(c) != [c] ==> EscapeChar(c)[0] == '\\'
    ensures forall i | 0 <= i < |EscapeChar(c)| :: EscapeChar(c)[i] as int >= 0x20
  {
  }

  lemma {:induction false} EscapedTextReads(text: string, rest: string, result: string)
    ensures ParseChars(EscapeText(text) + "\"" + rest, result) == Ok(result + text, rest)
    decreases |text|
  {
    hide ParseChars, EscapeText, EscapeChar;
    EscapedSplits(text, rest);
    if text == [] {
      QuoteReads(rest, result);
      assert result + text == result;
    } else {
      EscapeReads(text[0], EscapeText(text[1..]) + "\"" + rest, result);
      EscapedTextReads(text[1..], rest, result + [text[0]]);
      assert result + [text[0]] + text[1..] == result + text;
    }
  }

  lemma EscapedSplits(text: string, rest: string)
    ensures text == [] ==> EscapeText(text) + "\"" + rest == "\"" + rest
    ensures text != [] ==>
              EscapeText(text) + "\"" + rest == EscapeChar(text[0]) + (EscapeText(text[1..]) + "\"" + rest)
  {
    hide EscapeChar;
    if text != [] { FourParts(EscapeChar(text[0]), EscapeText(text[1..]), "\"", rest); }
  }

  lemma FourParts(a: string, b: string, c: string, d: string)
    ensures (a + b) + c + d == a + ((b + c) + d)
  {
  }

  lemma QuoteReads(rest: string, result: string)
    ensures ParseChars("\"" + rest, result) == Ok(result, rest)
  {
    assert ("\"" + rest)[1..] == rest;
  }

  lemma QuotedReads(text: string, rest: string)
    ensures ParseString(Quoted(text) + rest) == Ok(text, rest)
  {
    assert (Quoted(text) + rest)[1..] == EscapeText(text) + "\"" + rest;
    EscapedTextReads(text, rest, "");
    assert "" + text == text;
  }

  // ---------------------------------------------------------------- numbers

  lemma {:induction false} SkipsAllDigits(digits: string, rest: string)
    requires forall i :: 0 <= i < |digits| ==> IsDigit(digits[i])
    requires rest == [] || !IsDigit(rest[0])
    ensures SkipDigits(digits + rest) == rest
    decreases |digits|
  {
    if digits == [] {
      assert digits + rest == rest;
    } else {
      assert (digits + rest)[1..] == digits[1..] + rest;
      SkipsAllDigits(digits[1..], rest);
    }
  }

  /** A literal without fraction and exponent, after a minus sign or not. */
  lemma WholeNumber(s: string, t: string, rest: string)
    requires t != [] && IsDigit(t[0]) && s == (if s != [] && s[0] == '-' then ['-'] + t else t)
    requires SkipDigits(t) == rest && AfterExponent(AfterFraction(rest)) == rest
    requires DigitsValue(t[..|t| - |rest|]) < MAX_EXACT
    ensures var magnitude: int := DigitsValue(t[..|t| - |rest|]);
            ParseNumber(s) == Ok(Number(if s[0] == '-' then -magnitude else magnitude), rest)
  {
    hide DigitsValue, SkipDigits, AfterExponent, AfterFraction;
    assert s[0] == '-' ==> s[1..] == t;
  }

  lemma DigitsRead(digits: string, rest: string)
    requires digits != [] && (forall i :: 0 <= i < |digits| ==> IsDigit(digits[i])) && EndsNumber(rest)
    ensures var t := digits + rest;
            IsDigit(t[0]) && SkipDigits(t) == rest && t[..|t| - |rest|] == digits &&
            AfterExponent(AfterFraction(rest)) == rest
  {
    SkipsAllDigits(digits, rest);
  }

  lemma NumberReads(n: int, rest: string)
    requires -MAX_EXACT < n < MAX_EXACT && EndsNumber(rest)
    ensures ParseNumber(IntText(n) + rest) == Ok(Number(n), rest)
    ensures IntText(n) != [] && !IsWhitespace(IntText(n)[0]) && (IntText(n)[0] == '-' || IsDigit(IntText(n)[0]))
  {
    hide NatText, ParseNumber, DigitsValue;
    var digits := NatText(if n < 0 then -n else n);
    assert IntText(n) + rest == (if n < 0 then ['-'] + (digits + rest) else digits + rest);
    DigitsRead(digits, rest);
    WholeNumber(IntText(n) + rest, digits + rest, rest);
  }

  // ---------------------------------------------------------------- members

  lemma {:induction false} SetsNewMember(members: seq<Member>, key: string, value: Value)
    requires forall i :: 0 <= i < |members| ==> members[i].key != key
    ensures SetMember(members, key, value) == members + [Member(key, value)]
    decreases |members|
  {
    if members != [] {
      SetsNewMember(members[1..], key, value);
      assert [members[0]] + (members[1..] + [Member(key, value)]) == members + [Member(key, value)];
    }
  }

  /** A key seen before keeps its place. */
  lemma {:induction false} SetsOldMember(members: seq<Member>, i: nat, key: string, value: Value)
    requires i < |members| && members[i].key == key && forall j | 0 <= j < i :: members[j].key != key
    ensures SetMember(members, key, value) == members[i := Member(key, value)]
    decreases |members|
  {
    if i > 0 {
      SetsOldMember(members[1..], i - 1, key, value);
      assert [members[0]] + members[1..][i - 1 := Member(key, value)] == members[i := Member(key, value)];
    }
  }

  /** What was set is what is found, and nothing else changes. */
  lemma {:induction false} LooksUpWhatWasSet(members: seq<Member>, key: string, value: Value, other: string)
    ensures Lookup(SetMember(members, key, value), other) == if other == key then value else Lookup(members, other)
    ensures Lookup([], other) == Null
    decreases |members|
  {
    if members != [] { LooksUpWhatWasSet(members[1..], key, value, other); }
  }

  // ---------------------------------------------------------------- values

  /** What a value's text starts with: nothing the parser would skip. */
  lemma StartOfDump(v: Value, indent: int, level: nat)
    requires AllExact(v)
    ensures Dump(v, indent, level) != [] && !IsWhitespace(Dump(v, indent, level)[0])
    ensures Dump(v, indent, level)[0] != ']'
  {
    if v.Number? { NumberReads(v.n, ""); }
  }

  lemma SkipsOnce(text: string, depth: nat)
    ensures ParseValue(SkipWhitespace(text), depth) == ParseValue(text, depth)
  {
    hide ParseObject, ParseArray, ParseString, ParseNumber, ParseLiteral;
    assert SkipWhitespace(SkipWhitespace(text)) == SkipWhitespace(text);
  }

  lemma ScalarReads(v: Value, indent: int, level: nat, rest: string, depth: nat)
    requires AllExact(v) && !v.Array? && !v.Object? && EndsNumber(rest)
    ensures ParseValue(Dump(v, indent, level) + rest, depth) == Ok(v, rest)
  {
    hide ParseNumber, ParseString, Quoted, IntText;
    var text := Dump(v, indent, level) + rest;
    StartOfDump(v, indent, level);
    assert SkipWhitespace(text) == text;
    match v {
      case Null => assert text[|"null"|..] == rest;
      case Bool(truth) => assert text[|(if truth then "true" else "false")|..] == rest;
      case Number(n) => NumberReads(n, rest);
      case String(content) => QuotedStart(content); QuotedReads(content, rest);
    }
  }

  lemma QuotedStart(content: string)
    ensures Quoted(content) != [] && Quoted(content)[0] == '"'
  {
  }

  lemma ItemsReady(items: seq<Value>, depth: nat)
    requires AllExact(Array(items)) && DistinctKeys(Array(items)) && depth + Nesting(Array(items)) <= MAX_DEPTH
    ensures depth + 1 <= MAX_DEPTH
    ensures forall i :: 0 <= i < |items| ==>
              AllExact(items[i]) && DistinctKeys(items[i]) && depth + 1 + Nesting(items[i]) <= MAX_DEPTH
  {
    hide NestingOfItems;
    assert Nesting(Array(items)) == 1 + NestingOfItems(items);
  }

  lemma MembersReady(members: seq<Member>, depth: nat)
    requires AllExact(Object(members)) && DistinctKeys(Object(members)) && depth + Nesting(Object(members)) <= MAX_DEPTH
    ensures depth + 1 <= MAX_DEPTH && KeysDiffer(members)
    ensures forall i :: 0 <= i < |members| ==>
              AllExact(members[i].value) && DistinctKeys(members[i].value) &&
              depth + 1 + Nesting(members[i].value) <= MAX_DEPTH
  {
    hide NestingOfMembers;
    assert Nesting(Object(members)) == 1 + NestingOfMembers(members);
  }

  lemma {:induction false} ValueReads(v: Value, indent: int, level: nat, rest: string, depth: nat)
    requires AllExact(v) && DistinctKeys(v) && depth + Nesting(v) <= MAX_DEPTH && EndsNumber(rest)
    ensures ParseValue(Dump(v, indent, level) + rest, depth) == Ok(v, rest)
    decreases v, 1
  {
    hide Dump, ParseValue, AllExact, DistinctKeys, Nesting, ItemsText, MembersText, ParseItems, ParseMembers;
    match v {
      case Array(items) =>
        ItemsReady(items, depth);
        if items != [] {
          ItemsRead(items, indent, level, rest, depth + 1, []);
          assert [] + items == items;
        }
        ArrayReads(items, indent, level, rest, depth);
      case Object(members) =>
        MembersReady(members, depth);
        if members != [] {
          assert [] + members == members;
          MembersRead(members, indent, level, rest, depth + 1, []);
        }
        ObjectReads(members, indent, level, rest, depth);
      case _ => ScalarReads(v, indent, level, rest, depth);
    }
  }

  lemma ValueIsContainer(text: string, depth: nat)
    requires text != []
    ensures text[0] == '[' ==> ParseValue(text, depth) == ParseArray(text, depth)
    ensures text[0] == '{' ==> ParseValue(text, depth) == ParseObject(text, depth)
  {
    hide ParseArray, ParseObject, ParseString, ParseNumber, ParseLiteral;
  }

  /** The text of an array's items and what closes it. */
  function ItemsText(items: seq<Value>, indent: int, level: nat, rest: string): string
    requires items != [] && forall i :: 0 <= i < |items| ==> AllExact(items[i])
  {
    DumpItems(items, indent, level) + (LineBreak(indent, level) + ("]" + rest))
  }

  function MembersText(members: seq<Member>, indent: int, level: nat, rest: string): string
    requires members != [] && forall i :: 0 <= i < |members| ==> AllExact(members[i].value)
  {
    DumpMembers(members, indent, level) + (LineBreak(indent, level) + ("}" + rest))
  }

  lemma ArrayReads(items: seq<Value>, indent: int, level: nat, rest: string, depth: nat)
    requires AllExact(Array(items)) && depth + 1 <= MAX_DEPTH
    requires items != [] ==>
               ParseItems(ItemsText(items, indent, level, rest), depth + 1, []) == Ok(Array(items), rest)
    ensures ParseValue(Dump(Array(items), indent, level) + rest, depth) == Ok(Array(items), rest)
  {
    hide ParseValue, ParseItems, Dump, ItemsText;
    var text := Dump(Array(items), indent, level) + rest;
    ArrayOpens(items, indent, level, rest);
    ValueIsContainer(text, depth);
    if items == [] {
      assert ("]" + rest)[1..] == rest;
    } else {
      var inner := ItemsText(items, indent, level, rest);
      ItemsInText(items, indent, level, rest);
      StartOfItems(items, indent, level, rest);
      ItemsSkip(inner, depth + 1);
    }
  }

  lemma ArrayOpens(items: seq<Value>, indent: int, level: nat, rest: string)
    requires AllExact(Array(items))
    ensures var text := Dump(Array(items), indent, level) + rest;
            text != "" && text[0] == '[' && (items == [] ==> text[1..] == "]" + rest)
  {
    hide DumpItems, LineBreak;
  }

  lemma ItemsSkip(text: string, depth: nat)
    ensures ParseItems(SkipWhitespace(text), depth, []) == ParseItems(text, depth, [])
  {
    hide ParseValue;
    SkipsOnce(text, depth);
  }

  lemma StartOfItems(items: seq<Value>, indent: int, level: nat, rest: string)
    requires items != [] && forall i :: 0 <= i < |items| ==> AllExact(items[i])
    ensures var s := SkipWhitespace(ItemsText(items, indent, level, rest)); s != [] && s[0] != ']'
  {
    hide Dump, ItemsText, LineBreak;
    var first := Dump(items[0], indent, level + 1);
    var tail := ItemsShape(items, indent, level, rest);
    StartOfDump(items[0], indent, level + 1);
    SkipsLineBreak(indent, level + 1, first + tail);
  }

  lemma ItemsShape(items: seq<Value>, indent: int, level: nat, rest: string) returns (tail: string)
    requires items != [] && forall i :: 0 <= i < |items| ==> AllExact(items[i])
    ensures tail == if |items| == 1 then LineBreak(indent, level) + ("]" + rest)
                    else "," + ItemsText(items[1..], indent, level, rest)
    ensures ItemsText(items, indent, level, rest) ==
            LineBreak(indent, level + 1) + (Dump(items[0], indent, level + 1) + tail)
  {
    hide Dump, AllExact, LineBreak;
    var end := LineBreak(indent, level) + ("]" + rest);
    tail := if |items| == 1 then end else "," + ItemsText(items[1..], indent, level, rest);
  }

  /** The loop over a printed array's items. */
  lemma {:induction false} ItemsRead(items: seq<Value>, indent: int, level: nat, rest: string, depth: nat,
                                     before: seq<Value>)
    requires items != [] && forall i :: 0 <= i < |items| ==>
               AllExact(items[i]) && DistinctKeys(items[i]) && depth + Nesting(items[i]) <= MAX_DEPTH
    ensures ParseItems(ItemsText(items, indent, level, rest), depth, before) == Ok(Array(before + items), rest)
    decreases items, 0
  {
    hide Dump, ParseValue, DistinctKeys, AllExact, Nesting, ItemsText;
    var text := ItemsText(items, indent, level, rest);
    var first := Dump(items[0], indent, level + 1);
    var tail := ItemsShape(items, indent, level, rest);
    SkipsLineBreak(indent, level + 1, first + tail);
    SkipsOnce(text, depth);
    SkipsOnce(first + tail, depth);
    assert EndsNumber(tail);
    ValueReads(items[0], indent, level + 1, tail, depth);
    assert ParseValue(text, depth) == Ok(items[0], tail);
    if |items| == 1 {
      SkipsLineBreak(indent, level, "]" + rest);
      assert ("]" + rest)[1..] == rest;
      assert items == [items[0]];
    } else {
      assert SkipWhitespace(tail) == tail;
      assert tail[1..] == ItemsText(items[1..], indent, level, rest);
      ItemsRead(items[1..], indent, level, rest, depth, before + [items[0]]);
      assert before + [items[0]] + items[1..] == before + items;
    }
  }

  lemma ObjectReads(members: seq<Member>, indent: int, level: nat, rest: string, depth: nat)
    requires AllExact(Object(members)) && depth + 1 <= MAX_DEPTH
    requires members != [] ==>
               ParseMembers(MembersText(members, indent, level, rest), depth + 1, []) == Ok(Object(members), rest)
    ensures ParseValue(Dump(Object(members), indent, level) + rest, depth) == Ok(Object(members), rest)
  {
    hide ParseValue, ParseMembers, Dump, MembersText;
    var text := Dump(Object(members), indent, level) + rest;
    ObjectOpens(members, indent, level, rest);
    ValueIsContainer(text, depth);
    if members == [] {
      assert ("}" + rest)[1..] == rest;
    } else {
      var inner := MembersText(members, indent, level, rest);
      MembersInText(members, indent, level, rest);
      StartOfMembers(members, indent, level, rest);
      MembersSkip(inner, depth + 1);
    }
  }

  lemma ObjectOpens(members: seq<Member>, indent: int, level: nat, rest: string)
    requires AllExact(Object(members))
    ensures var text := Dump(Object(members), indent, level) + rest;
            text != "" && text[0] == '{' && (members == [] ==> text[1..] == "}" + rest)
  {
    hide DumpMembers, LineBreak;
  }

  lemma MembersSkip(text: string, depth: nat)
    ensures ParseMembers(SkipWhitespace(text), depth, []) == ParseMembers(text, depth, [])
  {
    assert SkipWhitespace(SkipWhitespace(text)) == SkipWhitespace(text);
    hide ParseString;
    assert ParseKey(SkipWhitespace(text)) == ParseKey(text);
    hide ParseValue, ParseKey, SetMember;
  }

  /** A member's text: the line break in front, the key, and the rest. */
  lemma MembersShape(members: seq<Member>, indent: int, level: nat, rest: string) returns (tail: string)
    requires members != [] && forall i :: 0 <= i < |members| ==> AllExact(members[i].value)
    ensures tail == if |members| == 1 then LineBreak(indent, level) + ("}" + rest)
                    else "," + MembersText(members[1..], indent, level, rest)
    ensures MembersText(members, indent, level, rest) ==
            LineBreak(indent, level + 1)
            + (Quoted(members[0].key) + (Colon(indent) + (Dump(members[0].value, indent, level + 1) + tail)))
  {
    hide Dump, Quoted, AllExact, LineBreak, Colon;
    var end := LineBreak(indent, level) + ("}" + rest);
    tail := if |members| == 1 then end else "," + MembersText(members[1..], indent, level, rest);
  }

  lemma StartOfMembers(members: seq<Member>, indent: int, level: nat, rest: string)
    requires members != [] && forall i :: 0 <= i < |members| ==> AllExact(members[i].value)
    ensures var s := SkipWhitespace(MembersText(members, indent, level, rest)); s != [] && s[0] != '}'
  {
    hide Dump, Quoted, MembersText, LineBreak, Colon;
    var tail := MembersShape(members, indent, level, rest);
    var first := Quoted(members[0].key);
    QuotedStart(members[0].key);
    SkipsLineBreak(indent, level + 1, first + (Colon(indent) + (Dump(members[0].value, indent, level + 1) + tail)));
  }

  /** The value after a printed key and colon. */
  lemma AfterColonSkips(v: Value, indent: int, level: nat, tail: string, depth: nat)
    requires AllExact(v)
    ensures var afterKey := Colon(indent) + (Dump(v, indent, level) + tail);
            SkipWhitespace(afterKey) == afterKey && afterKey[0] == ':' &&
            ParseValue(afterKey[1..], depth) == ParseValue(Dump(v, indent, level) + tail, depth)
  {
    hide Dump, ParseValue;
    var value := Dump(v, indent, level) + tail;
    var afterKey := Colon(indent) + value;
    if indent > 0 {
      assert afterKey[1..] == " " + value;
      assert (" " + value)[1..] == value;
      SkipsOnce(" " + value, depth);
      SkipsOnce(value, depth);
    } else {
      assert afterKey[1..] == value;
    }
  }

  lemma KeyReads(text: string, key: string, afterKey: string)
    requires ParseString(Quoted(key) + afterKey) == Ok(key, afterKey)
    requires SkipWhitespace(text) == Quoted(key) + afterKey
    requires SkipWhitespace(afterKey) == afterKey != [] && afterKey[0] == ':'
    ensures ParseKey(text) == Ok(key, afterKey[1..])
  {
    hide ParseString, SkipWhitespace, Quoted;
    QuotedStart(key);
  }

  /** One turn of the member loop. */
  lemma MemberReads(text: string, key: string, afterKey: string, value: Value, tail: string, depth: nat,
                    before: seq<Member>)
    requires ParseString(Quoted(key) + afterKey) == Ok(key, afterKey)
    requires SkipWhitespace(text) == Quoted(key) + afterKey
    requires SkipWhitespace(afterKey) == afterKey != [] && afterKey[0] == ':'
    requires ParseValue(afterKey[1..], depth) == Ok(value, tail)
    ensures var next := SkipWhitespace(tail);
            ParseMembers(text, depth, before) ==
            if next != [] && next[0] == ',' then ParseMembers(next[1..], depth, SetMember(before, key, value))
            else if next != [] && next[0] == '}' then Ok(Object(SetMember(before, key, value)), next[1..])
            else Fail(Expected('}'), |next|)
  {
    hide ParseKey, ParseString, ParseValue, SetMember, SkipWhitespace, Quoted;
    KeyReads(text, key, afterKey);
  }

  lemma {:induction false} MembersRead(members: seq<Member>, indent: int, level: nat, rest: string, depth: nat,
                                       before: seq<Member>)
    requires members != [] && forall i :: 0 <= i < |members| ==>
               AllExact(members[i].value) && DistinctKeys(members[i].value) &&
               depth + Nesting(members[i].value) <= MAX_DEPTH
    requires KeysDiffer(before + members)
    ensures ParseMembers(MembersText(members, indent, level, rest), depth, before) == Ok(Object(before + members), rest)
    decreases members, 0
  {
    hide Dump, ParseValue, DistinctKeys, AllExact, Nesting, Quoted, ParseString, MembersText, ParseMembers, Colon,
         LineBreak, KeysDiffer, SkipWhitespace;
    var key, value := members[0].key, members[0].value;
    var tail := MembersShape(members, indent, level, rest);
    TailStarts(members, indent, level, rest, tail);
    ValueReads(value, indent, level + 1, tail, depth);
    FirstMemberReads(members, indent, level, rest, depth, before, tail);
    NewKey(before, members);
    SetsNewMember(before, key, value);
    Rejoined(before, members);
    if |members| == 1 {
      OneOff('}', rest);
    } else {
      OneOff(',', MembersText(members[1..], indent, level, rest));
      MembersRead(members[1..], indent, level, rest, depth, before + [members[0]]);
    }
  }

  lemma Rejoined(before: seq<Member>, members: seq<Member>)
    requires members != []
    ensures members[0] == Member(members[0].key, members[0].value)
    ensures (before + [members[0]]) + members[1..] == before + members
    ensures |members| == 1 ==> before + [members[0]] == before + members
  {
  }

  lemma OneOff(c: char, rest: string)
    ensures ([c] + rest)[0] == c && ([c] + rest)[1..] == rest
  {
  }

  /** What follows a printed value: a comma, or a line break and the closing brace. */
  lemma TailStarts(members: seq<Member>, indent: int, level: nat, rest: string, tail: string)
    requires members != [] && forall i :: 0 <= i < |members| ==> AllExact(members[i].value)
    requires tail == if |members| == 1 then LineBreak(indent, level) + ("}" + rest)
                     else "," + MembersText(members[1..], indent, level, rest)
    ensures EndsNumber(tail)
    ensures SkipWhitespace(tail) == if |members| == 1 then "}" + rest else tail
  {
    hide Dump, AllExact, MembersText;
    if |members| == 1 { SkipsLineBreak(indent, level, "}" + rest); }
  }

  lemma FirstMemberReads(members: seq<Member>, indent: int, level: nat, rest: string, depth: nat, before: seq<Member>,
                         tail: string)
    requires members != [] && forall i :: 0 <= i < |members| ==> AllExact(members[i].value)
    requires MembersText(members, indent, level, rest) ==
             LineBreak(indent, level + 1)
             + (Quoted(members[0].key) + (Colon(indent) + (Dump(members[0].value, indent, level + 1) + tail)))
    requires ParseValue(Dump(members[0].value, indent, level + 1) + tail, depth) == Ok(members[0].value, tail)
    ensures var next := SkipWhitespace(tail);
            ParseMembers(MembersText(members, indent, level, rest), depth, before) ==
            if next != [] && next[0] == ','
            then ParseMembers(next[1..], depth, SetMember(before, members[0].key, members[0].value))
            else if next != [] && next[0] == '}'
            then Ok(Object(SetMember(before, members[0].key, members[0].value)), next[1..])
            else Fail(Expected('}'), |next|)
  {
    hide Dump, ParseValue, AllExact, Quoted, ParseString, MembersText, ParseMembers, Colon, LineBreak, SetMember;
    var afterKey := Colon(indent) + (Dump(members[0].value, indent, level + 1) + tail);
    SkipsLineBreak(indent, level + 1, Quoted(members[0].key) + afterKey);
    QuotedStart(members[0].key);
    QuotedReads(members[0].key, afterKey);
    AfterColonSkips(members[0].value, indent, level + 1, tail, depth);
    MemberReads(MembersText(members, indent, level, rest), members[0].key, afterKey, members[0].value, tail, depth,
                before);
  }

  lemma NewKey(before: seq<Member>, members: seq<Member>)
    requires members != [] && KeysDiffer(before + members)
    ensures forall i | 0 <= i < |before| :: before[i].key != members[0].key
  {
    forall i | 0 <= i < |before| ensures before[i].key != members[0].key {
      assert (before + members)[i].key != (before + members)[|before|].key;
    }
  }

  /** The round trip: whatever the indentation, parsing a printed document gives the value back. */
  lemma ParseUndoesDump(v: Value, indent: int)
    requires AllExact(v) && DistinctKeys(v) && Nesting(v) <= MAX_DEPTH
    ensures ParseDocument(Dump(v, indent, 0)) == Ok(v, "")
  {
    var text := Dump(v, indent, 0);
    StartOfDump(v, indent, 0);
    assert SkipWhitespace(text) == text;
    assert text + "" == text;
    ValueReads(v, indent, 0, "", 0);
  }

  // ---------------------------------------------------------------- the depth limit

  /** One container too many, anywhere in a printed value, is refused as too deep. */
  lemma {:induction false} ValueTooDeep(v: Value, indent: int, level: nat, rest: string, depth: nat)
    requires AllExact(v) && DistinctKeys(v) && depth <= MAX_DEPTH < depth + Nesting(v)
    ensures ParseValue(Dump(v, indent, level) + rest, depth).Fail?
    ensures ParseValue(Dump(v, indent, level) + rest, depth).error == TooDeep
    decreases v, 1
  {
    hide ParseValue, AllExact, DistinctKeys, ItemsText, MembersText, ParseItems, ParseMembers, NestingOfItems,
         NestingOfMembers, DumpItems, DumpMembers, LineBreak;
    var text := Dump(v, indent, level) + rest;
    ValueIsContainer(text, depth);
    match v {
      case Array(items) =>
        if depth + 1 <= MAX_DEPTH {
          PartsExact(v);
          DeepHasParts(v);
          var inner := ItemsText(items, indent, level, rest);
          assert text[1..] == inner by { ItemsInText(items, indent, level, rest); }
          StartOfItems(items, indent, level, rest);
          ItemsSkip(inner, depth + 1);
          ItemsTooDeep(items, indent, level, rest, depth + 1, []);
        }
      case Object(members) =>
        if depth + 1 <= MAX_DEPTH {
          PartsExact(v);
          DeepHasParts(v);
          var inner := MembersText(members, indent, level, rest);
          assert text[1..] == inner by { MembersInText(members, indent, level, rest); }
          StartOfMembers(members, indent, level, rest);
          MembersSkip(inner, depth + 1);
          MembersTooDeep(members, indent, level, rest, depth + 1, []);
        }
      case _ =>
    }
  }

  lemma DeepHasParts(v: Value)
    requires Nesting(v) > 1
    ensures v.Array? ==> v.items != []
    ensures v.Object? ==> v.members != []
  {
  }

  lemma PartsExact(v: Value)
    requires AllExact(v) && DistinctKeys(v)
    ensures v.Array? ==> forall i :: 0 <= i < |v.items| ==> AllExact(v.items[i]) && DistinctKeys(v.items[i])
    ensures v.Object? ==>
              forall i :: 0 <= i < |v.members| ==> AllExact(v.members[i].value) && DistinctKeys(v.members[i].value)
  {
  }

  lemma ItemsInText(items: seq<Value>, indent: int, level: nat, rest: string)
    requires AllExact(Array(items)) && items != []
    ensures (Dump(Array(items), indent, level) + rest)[1..] == ItemsText(items, indent, level, rest)
  {
    hide DumpItems, LineBreak;
  }

  lemma MembersInText(members: seq<Member>, indent: int, level: nat, rest: string)
    requires AllExact(Object(members)) && members != []
    ensures (Dump(Object(members), indent, level) + rest)[1..] == MembersText(members, indent, level, rest)
  {
    hide DumpMembers, LineBreak;
  }

  lemma {:induction false} ItemsTooDeep(items: seq<Value>, indent: int, level: nat, rest: string, depth: nat,
                                        before: seq<Value>)
    requires items != [] && forall i :: 0 <= i < |items| ==> AllExact(items[i]) && DistinctKeys(items[i])
    requires depth <= MAX_DEPTH < depth + NestingOfItems(items)
    ensures ParseItems(ItemsText(items, indent, level, rest), depth, before).Fail?
    ensures ParseItems(ItemsText(items, indent, level, rest), depth, before).error == TooDeep
    decreases items, 0
  {
    hide Dump, ParseValue, DistinctKeys, AllExact, Nesting, ItemsText;
    var text := ItemsText(items, indent, level, rest);
    var first := Dump(items[0], indent, level + 1);
    var tail := ItemsShape(items, indent, level, rest);
    SkipsLineBreak(indent, level + 1, first + tail);
    SkipsOnce(text, depth);
    SkipsOnce(first + tail, depth);
    assert EndsNumber(tail);
    if depth + Nesting(items[0]) > MAX_DEPTH {
      ValueTooDeep(items[0], indent, level + 1, tail, depth);
    } else {
      ValueReads(items[0], indent, level + 1, tail, depth);
      assert |items| > 1;
      assert SkipWhitespace(tail) == tail;
      assert tail[1..] == ItemsText(items[1..], indent, level, rest);
      ItemsTooDeep(items[1..], indent, level, rest, depth, before + [items[0]]);
    }
  }

  /** One turn of the member loop whose value fails. */
  lemma MemberFails(text: string, key: string, afterKey: string, depth: nat, before: seq<Member>)
    requires ParseString(Quoted(key) + afterKey) == Ok(key, afterKey)
    requires SkipWhitespace(text) == Quoted(key) + afterKey
    requires SkipWhitespace(afterKey) == afterKey != [] && afterKey[0] == ':'
    requires ParseValue(afterKey[1..], depth).Fail?
    ensures ParseMembers(text, depth, before) == ParseValue(afterKey[1..], depth)
  {
    hide ParseKey, ParseString, ParseValue, SetMember, SkipWhitespace, Quoted;
    KeyReads(text, key, afterKey);
  }

  lemma {:induction false} MembersTooDeep(members: seq<Member>, indent: int, level: nat, rest: string, depth: nat,
                                          before: seq<Member>)
    requires members != [] && forall i :: 0 <= i < |members| ==>
               AllExact(members[i].value) && DistinctKeys(members[i].value)
    requires depth <= MAX_DEPTH < depth + NestingOfMembers(members)
    ensures ParseMembers(MembersText(members, indent, level, rest), depth, before).Fail?
    ensures ParseMembers(MembersText(members, indent, level, rest), depth, before).error == TooDeep
    decreases members, 0
  {
    hide Dump, ParseValue, DistinctKeys, AllExact, Nesting, Quoted, ParseString, MembersText, ParseMembers, Colon,
         SetMember;
    var text := MembersText(members, indent, level, rest);
    var tail := MembersShape(members, indent, level, rest);
    var value := members[0].value;
    var afterKey := Colon(indent) + (Dump(value, indent, level + 1) + tail);
    SkipsLineBreak(indent, level + 1, Quoted(members[0].key) + afterKey);
    QuotedStart(members[0].key);
    QuotedReads(members[0].key, afterKey);
    assert EndsNumber(tail);
    AfterColonSkips(value, indent, level + 1, tail, depth);
    if depth + Nesting(value) > MAX_DEPTH {
      ValueTooDeep(value, indent, level + 1, tail, depth);
      MemberFails(text, members[0].key, afterKey, depth, before);
    } else {
      ValueReads(value, indent, level + 1, tail, depth);
      MemberReads(text, members[0].key, afterKey, value, tail, depth, before);
      assert |members| > 1;
      assert SkipWhitespace(tail) == tail;
      assert tail[1..] == MembersText(members[1..], indent, level, rest);
      MembersTooDeep(members[1..], indent, level, rest, depth, SetMember(before, members[0].key, value));
    }
  }

  /** Exactly the values of at most 200 nested containers survive printing and parsing. */
  lemma RoundTripIffShallow(v: Value, indent: int)
    requires AllExact(v) && DistinctKeys(v)
    ensures ParseDocument(Dump(v, indent, 0)) == Ok(v, "") <==> Nesting(v) <= MAX_DEPTH
    ensures Nesting(v) > MAX_DEPTH ==> ParseDocument(Dump(v, indent, 0)).Fail? &&
                                       ParseDocument(Dump(v, indent, 0)).error == TooDeep
  {
    if Nesting(v) <= MAX_DEPTH {
      ParseUndoesDump(v, indent);
    } else {
      var text := Dump(v, indent, 0);
      StartOfDump(v, indent, 0);
      assert SkipWhitespace(text) == text;
      assert text + "" == text;
      ValueTooDeep(v, indent, 0, "", 0);
      hide Dump, ParseValue, Nesting;
    }
  }
}
