/** What the parser makes of text encoding: well-formed UTF-8 in, well-formed UTF-8 out, and `\u`
    escapes read as UTF-16. */
module JsonUnicode {
  import opened Json
  import JsonRoundTrip
  import opened Utf8

  // ---------------------------------------------------------------- strings

  lemma AppendedIsWellFormed(codepoint: int)
    requires 0 <= codepoint <= 0x10FFFF
    ensures WellFormed(AppendedFor(codepoint))
  {
    EncodeWellFormed(if 0xD800 <= codepoint <= 0xDFFF then 0xFFFD else codepoint);
  }

  /** What is still to be read is well-formed too, and so is the text of the escape. */
  lemma {:induction false} HexKeepsRest(s: string, digits: nat, value: nat)
    requires digits <= 4 && WellFormed(s) && ParseHex(s, digits, value).Ok?
    ensures WellFormed(ParseHex(s, digits, value).rest)
    decreases digits
  {
    if digits > 0 {
      AsciiOnlyAtStart(Start, s);
      HexKeepsRest(s[1..], digits - 1, value * 16 + HexValue(s[0]));
    }
  }

  lemma UnicodeKeeps(s: string)
    requires WellFormed(s) && ParseUnicode(s).Ok?
    ensures WellFormed(ParseUnicode(s).value) && WellFormed(ParseUnicode(s).rest)
  {
    hide WellFormed;
    HexKeepsRest(s, 4, 0);
    var unit := ParseHex(s, 4, 0).value;
    var rest := ParseHex(s, 4, 0).rest;
    AppendedIsWellFormed(unit);
    if IsHighSurrogate(unit) && |rest| >= 2 && rest[0] == '\\' && rest[1] == 'u' {
      AsciiRest(rest);
      AsciiRest(rest[1..]);
      assert rest[1..][1..] == rest[2..];
      if ParseHex(rest[2..], 4, 0).Ok? {
        HexKeepsRest(rest[2..], 4, 0);
        var low := ParseHex(rest[2..], 4, 0).value;
        if IsLowSurrogate(low) { AppendedIsWellFormed(0x10000 + (unit - 0xD800) * 0x400 + (low - 0xDC00)); }
      }
    }
  }

  lemma AsciiRest(s: string)
    requires WellFormed(s) && s != [] && s[0] as int <= 0x7F
    ensures WellFormed(s[1..])
  {
    AsciiOnlyAtStart(Start, s);
  }

  lemma AppendWellFormed(a: string, b: string)
    requires WellFormed(a) && WellFormed(b)
    ensures WellFormed(a + b)
  {
    RunConcat(Start, a, b);
  }

  /** The loop over a string's characters: what has been collected stands inside a sequence exactly
      where the text does, and escapes are only met between characters. */
  lemma {:induction false} CharsKeep(state: State, s: string, result: string)
    requires Run(Start, result) == state && Run(state, s) == Start
    requires ParseChars(s, result).Ok?
    ensures WellFormed(ParseChars(s, result).value) && WellFormed(ParseChars(s, result).rest)
    decreases |s|
  {
    if s[0] == '"' {
      AsciiOnlyAtStart(state, s);
    } else if s[0] != '\\' {
      RunConcat(Start, result, [s[0]]);
      Run1(state, s[0]);
      CharsKeep(Step(state, s[0]), s[1..], result + [s[0]]);
    } else {
      AsciiOnlyAtStart(state, s);
      var appended: string, rest: string;
      if s[1] == 'u' {
        AsciiOnlyAtStart(Start, s[1..]);
        assert s[1..][1..] == s[2..];
        UnicodeKeeps(s[2..]);
        appended, rest := ParseUnicode(s[2..]).value, ParseUnicode(s[2..]).rest;
      } else {
        appended, rest := Escaped(s[1]), s[2..];
        AsciiOnlyAtStart(Start, s[1..]);
        assert s[1..][1..] == s[2..];
        AsciiIsWellFormed(appended);
      }
      AppendWellFormed(result, appended);
      CharsKeep(Start, rest, result + appended);
    }
  }

  lemma StringKeeps(s: string)
    requires WellFormed(s) && ParseString(s).Ok?
    ensures WellFormed(ParseString(s).value) && WellFormed(ParseString(s).rest)
  {
    AsciiRest(s);
    CharsKeep(Start, s[1..], "");
  }

  // ---------------------------------------------------------------- values

  /** Every key and string in a value. */
  predicate AllWellFormed(v: Value) {
    match v
    case String(text) => WellFormed(text)
    case Array(items) => forall i :: 0 <= i < |items| ==> AllWellFormed(items[i])
    case Object(members) => MembersWellFormed(members)
    case _ => true
  }

  predicate MembersWellFormed(members: seq<Member>) {
    forall i :: 0 <= i < |members| ==> WellFormed(members[i].key) && AllWellFormed(members[i].value)
  }

  lemma {:induction false} SpaceKeeps(s: string)
    requires WellFormed(s)
    ensures WellFormed(SkipWhitespace(s))
    decreases |s|
  {
    if s != [] && IsWhitespace(s[0]) {
      AsciiRest(s);
      SpaceKeeps(s[1..]);
    }
  }

  lemma {:induction false} DigitsKeep(s: string)
    requires WellFormed(s)
    ensures WellFormed(SkipDigits(s))
    decreases |s|
  {
    if s != [] && IsDigit(s[0]) {
      AsciiRest(s);
      DigitsKeep(s[1..]);
    }
  }

  lemma NumberKeeps(s: string)
    requires WellFormed(s) && ParseNumber(s).Ok?
    ensures WellFormed(ParseNumber(s).rest) && AllWellFormed(ParseNumber(s).value)
  {
    hide WellFormed, SkipDigits;
    var t := if s[0] == '-' then s[1..] else s;
    if s[0] == '-' { AsciiRest(s); }
    DigitsKeep(t);
    var u := SkipDigits(t);
    if u != [] && u[0] == '.' { AsciiRest(u); DigitsKeep(u[1..]); }
    var w := AfterFraction(u);
    if w != [] && (w[0] == 'e' || w[0] == 'E') {
      AsciiRest(w);
      var x := w[1..];
      if x != [] && (x[0] == '+' || x[0] == '-') {
        AsciiRest(x);
        DigitsKeep(x[1..]);
      } else {
        DigitsKeep(x);
      }
    }
  }

  lemma LiteralKeeps(s: string, literal: string)
    requires WellFormed(s) && literal <= s && forall i :: 0 <= i < |literal| ==> literal[i] as int <= 0x7F
    ensures WellFormed(s[|literal|..])
  {
    AsciiIsWellFormed(literal);
    assert s == literal + s[|literal|..];
    RunConcat(Start, literal, s[|literal|..]);
  }

  lemma {:induction false} SetKeeps(members: seq<Member>, key: string, value: Value)
    requires MembersWellFormed(members) && WellFormed(key) && AllWellFormed(value)
    ensures MembersWellFormed(SetMember(members, key, value))
    decreases |members|
  {
    hide WellFormed, AllWellFormed;
    if members != [] && members[0].key != key { SetKeeps(members[1..], key, value); }
  }

  lemma {:induction false} ValueKeeps(text: string, depth: nat)
    requires WellFormed(text) && ParseValue(text, depth).Ok?
    ensures AllWellFormed(ParseValue(text, depth).value) && WellFormed(ParseValue(text, depth).rest)
    decreases |text|, 2
  {
    hide WellFormed, AllWellFormed, ParseNumber, ParseString, ParseItems, ParseMembers, SkipWhitespace;
    SpaceKeeps(text);
    var s := SkipWhitespace(text);
    if s[0] == '{' {
      AsciiRest(s);
      SpaceKeeps(s[1..]);
      var t := SkipWhitespace(s[1..]);
      if t != [] && t[0] == '}' { AsciiRest(t); EmptyWellFormed(); } else { MembersKeep(t, depth + 1, []); }
    } else if s[0] == '[' {
      AsciiRest(s);
      SpaceKeeps(s[1..]);
      var t := SkipWhitespace(s[1..]);
      if t != [] && t[0] == ']' { AsciiRest(t); EmptyWellFormed(); } else { ItemsKeep(t, depth + 1, []); }
    } else if s[0] == '"' {
      StringKeeps(s);
      TextWellFormed(ParseString(s).value);
    } else if s[0] == 't' {
      LiteralKeeps(s, "true");
      EmptyWellFormed();
    } else if s[0] == 'f' {
      LiteralKeeps(s, "false");
      EmptyWellFormed();
    } else if s[0] == 'n' {
      LiteralKeeps(s, "null");
      EmptyWellFormed();
    } else {
      NumberKeeps(s);
    }
  }

  lemma EmptyWellFormed()
    ensures AllWellFormed(Object([])) && AllWellFormed(Array([])) && AllWellFormed(Null)
    ensures AllWellFormed(Bool(true)) && AllWellFormed(Bool(false))
  {
  }

  lemma TextWellFormed(text: string)
    requires WellFormed(text)
    ensures AllWellFormed(String(text))
  {
  }

  lemma {:induction false} ItemsKeep(text: string, depth: nat, items: seq<Value>)
    requires WellFormed(text) && ParseItems(text, depth, items).Ok?
    requires forall i :: 0 <= i < |items| ==> AllWellFormed(items[i])
    ensures AllWellFormed(ParseItems(text, depth, items).value) && WellFormed(ParseItems(text, depth, items).rest)
    decreases |text|, 3
  {
    hide WellFormed, ParseValue, SkipWhitespace;
    ValueKeeps(text, depth);
    var value := ParseValue(text, depth).value;
    SpaceKeeps(ParseValue(text, depth).rest);
    var next := SkipWhitespace(ParseValue(text, depth).rest);
    AsciiRest(next);
    if next[0] == ',' { ItemsKeep(next[1..], depth, items + [value]); }
  }

  lemma {:induction false} MembersKeep(text: string, depth: nat, members: seq<Member>)
    requires WellFormed(text) && ParseMembers(text, depth, members).Ok?
    requires MembersWellFormed(members)
    ensures AllWellFormed(ParseMembers(text, depth, members).value)
    ensures WellFormed(ParseMembers(text, depth, members).rest)
    decreases |text|, 3
  {
    hide WellFormed, ParseValue, ParseKey, SkipWhitespace, SetMember, MembersWellFormed;
    KeyKeeps(text);
    var key := ParseKey(text).value;
    var afterColon := ParseKey(text).rest;
    ValueKeeps(afterColon, depth);
    var value := ParseValue(afterColon, depth).value;
    SetKeeps(members, key, value);
    SpaceKeeps(ParseValue(afterColon, depth).rest);
    var next := SkipWhitespace(ParseValue(afterColon, depth).rest);
    AsciiRest(next);
    if next[0] == ',' { MembersKeep(next[1..], depth, SetMember(members, key, value)); }
  }

  lemma KeyKeeps(text: string)
    requires WellFormed(text) && ParseKey(text).Ok?
    ensures WellFormed(ParseKey(text).value) && WellFormed(ParseKey(text).rest)
  {
    hide WellFormed, ParseString, SkipWhitespace;
    SpaceKeeps(text);
    var s := SkipWhitespace(text);
    StringKeeps(s);
    SpaceKeeps(ParseString(s).rest);
    AsciiRest(SkipWhitespace(ParseString(s).rest));
  }

  /** Well-formed text parses to a value all of whose keys and strings are well-formed. */
  lemma DocumentKeeps(text: string)
    requires WellFormed(text) && ParseDocument(text).Ok?
    ensures AllWellFormed(ParseDocument(text).value)
  {
    hide WellFormed, ParseValue, AllWellFormed, SkipWhitespace;
    SpaceKeeps(text);
    ValueKeeps(SkipWhitespace(text), 0);
  }

  // ---------------------------------------------------------------- what a string's text stands for

  /** A piece of a string's text: a character as it stands, a one-letter escape, or a `\u` escape with its digits. */
  datatype Token = Raw(c: char) | Letter(c: char) | Unit(digits: string)

  /** The letters that may follow a backslash, and what each stands for (RFC 8259 section 7). */
  const LETTERS: map<char, char> :=
    map['"' := '"', '\\' := '\\', '/' := '/', 'b' := 8 as char, 'f' := 12 as char, 'n' := 10 as char,
        'r' := 13 as char, 't' := 9 as char]

  lemma LettersAre(c: char)
    ensures c in LETTERS <==> Escaped(c) != ""
    ensures c in LETTERS ==> c != 'u' && Escaped(c) == [LETTERS[c]]
  {
  }

  predicate IsToken(t: Token) {
    match t
    case Raw(c) => c != '"' && c != '\\'
    case Letter(c) => c in LETTERS
    case Unit(digits) => |digits| == 4 && forall i | 0 <= i < 4 :: HexValue(digits[i]) >= 0
  }

  predicate AllTokens(tokens: seq<Token>) {
    forall i | 0 <= i < |tokens| :: IsToken(tokens[i])
  }

  /** A hexadecimal digit, in lower or upper case. */
  lemma HexValueIff(c: char, n: nat)
    ensures HexValue(c) == n <==> n < 16 && ("0123456789abcdef"[n] == c || "0123456789ABCDEF"[n] == c)
  {
  }

  /** The number some digits give. */
  function HexNumber(digits: string): (n: nat)
    requires forall i | 0 <= i < |digits| :: HexValue(digits[i]) >= 0
    ensures |digits| <= 4 ==> n < Pow16(|digits|)
  {
    if digits == "" then 0 else HexNumber(digits[..|digits| - 1]) * 16 + HexValue(digits[|digits| - 1])
  }

  /** The UTF-16 code unit four digits give. */
  function UnitOf(digits: string): (unit: int)
    requires IsToken(Unit(digits))
    ensures 0 <= unit <= 0xFFFF
  {
    HexNumber(digits)
  }

  function TokenText(t: Token): string {
    match t
    case Raw(c) => [c]
    case Letter(c) => ['\\', c]
    case Unit(digits) => "\\u" + digits
  }

  function TokensText(tokens: seq<Token>): string {
    if tokens == [] then "" else TokenText(tokens[0]) + TokensText(tokens[1..])
  }

  /** Two `\u` escapes that are the halves of one character. */
  predicate StartsPair(tokens: seq<Token>)
    requires AllTokens(tokens)
  {
    |tokens| >= 2 && tokens[0].Unit? && tokens[1].Unit? && IsHighSurrogate(UnitOf(tokens[0].digits)) &&
    IsLowSurrogate(UnitOf(tokens[1].digits))
  }

  function PairOf(high: int, low: int): (cp: int)
    requires IsHighSurrogate(high) && IsLowSurrogate(low)
    ensures IsScalar(cp)
  {
    0x10000 + (high - 0xD800) * 0x400 + (low - 0xDC00)
  }

  function TokenMeaning(t: Token): string
    requires IsToken(t)
  {
    match t
    case Raw(c) => [c]
    case Letter(c) => [LETTERS[c]]
    case Unit(digits) =>
      var unit := UnitOf(digits);
      Encode(if 0xD800 <= unit <= 0xDFFF then 0xFFFD else unit)
  }

  /** The string the tokens stand for: a high half followed by a low half is one character, any other half
      U+FFFD (RFC 8259 section 7; the Unicode replacement rule). */
  function Meaning(tokens: seq<Token>): string
    requires AllTokens(tokens)
  {
    if tokens == [] then ""
    else if StartsPair(tokens) then
      Encode(PairOf(UnitOf(tokens[0].digits), UnitOf(tokens[1].digits))) + Meaning(tokens[2..])
    else TokenMeaning(tokens[0]) + Meaning(tokens[1..])
  }

  // ---------------------------------------------------------------- reading it

  lemma {:induction false} HexStep(c: char, rest: string, digits: nat, value: nat)
    requires 0 < digits <= 4 && HexValue(c) >= 0
    ensures ParseHex([c] + rest, digits, value) == ParseHex(rest, digits - 1, value * 16 + HexValue(c))
  {
    hide ParseHex, HexValue;
    var s := [c] + rest;
    assert s[0] == c && s[1..] == rest;
    HexUnfold(s, digits, value);
  }

  lemma {:induction false} HexUnfold(s: string, digits: nat, value: nat)
    requires 0 < digits <= 4 && s != [] && HexValue(s[0]) >= 0
    ensures ParseHex(s, digits, value) == ParseHex(s[1..], digits - 1, value * 16 + HexValue(s[0]))
  {
    hide HexValue, Room;
  }

  lemma EndOfHex(rest: string, unit: nat)
    ensures ParseHex(rest, 0, unit) == Ok(unit, rest)
  {
  }

  lemma UnitReads(digits: string, rest: string)
    requires IsToken(Unit(digits))
    ensures ParseHex(digits + rest, 4, 0) == Ok(UnitOf(digits), rest)
  {
    hide ParseHex, HexValue;
    var a, b, c, d := digits[0], digits[1], digits[2], digits[3];
    var s1 := [d] + rest;
    var s2 := [c] + s1;
    var s3 := [b] + s2;
    assert digits + rest == [a] + s3;
    HexStep(a, s3, 4, 0);
    HexStep(b, s2, 3, HexValue(a));
    HexStep(c, s1, 2, HexValue(a) * 16 + HexValue(b));
    HexStep(d, rest, 1, (HexValue(a) * 16 + HexValue(b)) * 16 + HexValue(c));
    FourDigits(digits);
    EndOfHex(rest, UnitOf(digits));
  }

  lemma FourDigits(digits: string)
    requires IsToken(Unit(digits))
    ensures UnitOf(digits) == ((HexValue(digits[0]) * 16 + HexValue(digits[1])) * 16 + HexValue(digits[2])) * 16 +
                              HexValue(digits[3])
  {
    hide HexValue;
    var three, two, one := digits[..3], digits[..2], digits[..1];
    assert three[..2] == two && two[..1] == one && one[..0] == "";
    assert HexNumber(one) == HexValue(digits[0]);
    assert HexNumber(two) == HexNumber(one) * 16 + HexValue(digits[1]);
    assert HexNumber(three) == HexNumber(two) * 16 + HexValue(digits[2]);
  }

  /** The text of a string from some token on, and what follows it. */
  function From(tokens: seq<Token>, rest: string): string {
    TokensText(tokens) + ("\"" + rest)
  }

  lemma FromSplits(tokens: seq<Token>, rest: string)
    ensures tokens != [] ==> From(tokens, rest) == TokenText(tokens[0]) + From(tokens[1..], rest)
    ensures tokens == [] ==> From(tokens, rest) == "\"" + rest
  {
    hide TokenText;
    if tokens == [] { assert "" + ("\"" + rest) == "\"" + rest; }
  }

  lemma PairReads(tokens: seq<Token>, rest: string)
    requires AllTokens(tokens) && StartsPair(tokens)
    ensures ParseUnicode(tokens[0].digits + From(tokens[1..], rest)) ==
            Ok(Encode(PairOf(UnitOf(tokens[0].digits), UnitOf(tokens[1].digits))), From(tokens[2..], rest))
  {
    hide Encode, ParseHex, From, UnitOf;
    FromSplits(tokens[1..], rest);
    assert tokens[1..][1..] == tokens[2..];
    var after, beyond := From(tokens[1..], rest), From(tokens[2..], rest);
    UnitReads(tokens[0].digits, after);
    UnitReads(tokens[1].digits, beyond);
    assert after == "\\u" + tokens[1].digits + beyond;
    assert after[2..] == tokens[1].digits + beyond;
  }

  /** What a text that goes on with a `\u` escape is made of. */
  lemma EscapeAhead(tokens: seq<Token>, rest: string)
    requires AllTokens(tokens)
    ensures var s := From(tokens, rest);
            |s| >= 2 && s[0] == '\\' && s[1] == 'u' ==>
              tokens != [] && tokens[0].Unit? && s[2..] == tokens[0].digits + From(tokens[1..], rest)
  {
    hide From, Escaped, HexValue;
    FromSplits(tokens, rest);
    if tokens != [] && tokens[0].Unit? {
      assert ("\\u" + tokens[0].digits + From(tokens[1..], rest))[2..] == tokens[0].digits + From(tokens[1..], rest);
    }
  }

  lemma SingleReads(tokens: seq<Token>, rest: string)
    requires AllTokens(tokens) && tokens != [] && tokens[0].Unit? && !StartsPair(tokens)
    ensures ParseUnicode(tokens[0].digits + From(tokens[1..], rest)) ==
            Ok(TokenMeaning(tokens[0]), From(tokens[1..], rest))
  {
    hide Encode, ParseHex, From, UnitOf, IsToken;
    var after := From(tokens[1..], rest);
    UnitReads(tokens[0].digits, after);
    EscapeAhead(tokens[1..], rest);
    if |after| >= 2 && after[0] == '\\' && after[1] == 'u' {
      UnitReads(tokens[1].digits, From(tokens[1..][1..], rest));
    }
  }

  /** An escape inside a string: the characters after it are read with its text collected. */
  lemma EscapeCollects(inner: string, text: string, after: string, result: string)
    requires ParseUnicode(inner) == Ok(text, after)
    ensures ParseChars("\\u" + inner, result) == ParseChars(after, result + text)
  {
    hide ParseUnicode;
    assert ("\\u" + inner)[2..] == inner;
  }

  lemma RawCollects(c: char, after: string, result: string)
    requires IsToken(Raw(c))
    ensures ParseChars([c] + after, result) == ParseChars(after, result + [c])
  {
    assert ([c] + after)[1..] == after;
  }

  lemma LetterCollects(c: char, after: string, result: string)
    requires IsToken(Letter(c))
    ensures ParseChars(['\\', c] + after, result) == ParseChars(after, result + [LETTERS[c]])
  {
    LettersAre(c);
    hide Escaped, ParseUnicode;
    assert (['\\', c] + after)[2..] == after;
  }

  lemma QuoteEnds(rest: string, result: string)
    ensures ParseChars("\"" + rest, result) == Ok(result, rest)
  {
    assert ("\"" + rest)[1..] == rest;
  }

  lemma {:induction false} TokensRead(tokens: seq<Token>, rest: string, result: string)
    requires AllTokens(tokens)
    ensures ParseChars(From(tokens, rest), result) == Ok(result + Meaning(tokens), rest)
    decreases |tokens|
  {
    hide Encode, From, ParseUnicode, ParseChars, IsToken, UnitOf, Escaped;
    FromSplits(tokens, rest);
    if tokens == [] {
      QuoteEnds(rest, result);
      assert result + "" == result;
    } else if StartsPair(tokens) {
      var text := Encode(PairOf(UnitOf(tokens[0].digits), UnitOf(tokens[1].digits)));
      PairReads(tokens, rest);
      Prefixed(tokens[0].digits, From(tokens[1..], rest));
      EscapeCollects(tokens[0].digits + From(tokens[1..], rest), text, From(tokens[2..], rest), result);
      TokensRead(tokens[2..], rest, result + text);
      assert result + text + Meaning(tokens[2..]) == result + (text + Meaning(tokens[2..]));
    } else {
      var text := TokenMeaning(tokens[0]);
      TokenReads(tokens, rest, result);
      TokensRead(tokens[1..], rest, result + text);
      assert result + text + Meaning(tokens[1..]) == result + (text + Meaning(tokens[1..]));
    }
  }

  lemma Prefixed(digits: string, after: string)
    ensures ("\\u" + digits) + after == "\\u" + (digits + after)
  {
  }

  lemma TokenReads(tokens: seq<Token>, rest: string, result: string)
    requires AllTokens(tokens) && tokens != [] && !StartsPair(tokens)
    ensures ParseChars(From(tokens, rest), result) ==
            ParseChars(From(tokens[1..], rest), result + TokenMeaning(tokens[0]))
  {
    hide Encode, From, ParseUnicode, ParseChars, IsToken, UnitOf, Escaped;
    FromSplits(tokens, rest);
    var after := From(tokens[1..], rest);
    match tokens[0]
    case Raw(c) => RawCollects(c, after, result);
    case Letter(c) => LetterCollects(c, after, result);
    case Unit(digits) =>
      SingleReads(tokens, rest);
      Prefixed(digits, after);
      EscapeCollects(digits + after, TokenMeaning(tokens[0]), after, result);
  }

  lemma {:induction false} HexDigitsRead(s: string, digits: nat, value: nat)
    requires digits <= 4 && ParseHex(s, digits, value).Ok?
    ensures |s| >= digits && forall i | 0 <= i < digits :: HexValue(s[i]) >= 0
    decreases digits
  {
    hide HexValue;
    if digits > 0 {
      HexDigitsRead(s[1..], digits - 1, value * 16 + HexValue(s[0]));
      forall i | 0 <= i < digits ensures HexValue(s[i]) >= 0 {
        if i > 0 { assert s[i] == s[1..][i - 1]; }
      }
    }
  }

  lemma Cut(s: string)
    requires ParseHex(s, 4, 0).Ok?
    ensures |s| >= 4 && IsToken(Unit(s[..4])) && ParseHex(s, 4, 0).rest == s[4..] && s == s[..4] + s[4..]
  {
    HexDigitsRead(s, 4, 0);
  }

  /** Whatever is read as a string's characters is made of tokens. */
  lemma {:induction false} TokensOf(s: string, result: string) returns (tokens: seq<Token>)
    requires ParseChars(s, result).Ok?
    ensures AllTokens(tokens) && s == From(tokens, ParseChars(s, result).rest)
    decreases |s|
  {
    hide From, IsToken, ParseUnicode, HexValue;
    var rest := ParseChars(s, result).rest;
    if s[0] == '"' {
      tokens := [];
      FromSplits(tokens, rest);
    } else if s[0] != '\\' {
      var after := TokensOf(s[1..], result + [s[0]]);
      RawIs(s[0]);
      tokens := [Raw(s[0])] + after;
      assert s == TokenText(Raw(s[0])) + s[1..];
      Added(Raw(s[0]), after, rest, s);
    } else if s[1] != 'u' {
      var after := TokensOf(s[2..], result + Escaped(s[1]));
      LetterIs(s[1]);
      tokens := [Letter(s[1])] + after;
      assert s == TokenText(Letter(s[1])) + s[2..];
      Added(Letter(s[1]), after, rest, s);
    } else {
      var unicode := ParseUnicode(s[2..]);
      var after := TokensOf(unicode.rest, result + unicode.value);
      tokens := UnicodeAdded(s, after, rest);
    }
  }

  lemma RawIs(c: char)
    requires c != '"' && c != '\\'
    ensures IsToken(Raw(c))
  {
  }

  lemma LetterIs(c: char)
    requires c != 'u' && Escaped(c) != ""
    ensures IsToken(Letter(c))
  {
    LettersAre(c);
  }

  /** One `\u` escape, or two that are a pair, in front of other tokens. */
  lemma UnicodeAdded(s: string, after: seq<Token>, rest: string) returns (tokens: seq<Token>)
    requires |s| >= 2 && s[0] == '\\' && s[1] == 'u' && ParseUnicode(s[2..]).Ok?
    requires AllTokens(after) && ParseUnicode(s[2..]).rest == From(after, rest)
    ensures AllTokens(tokens) && s == From(tokens, rest)
  {
    hide From, IsToken, ParseHex, Encode, HexValue;
    Cut(s[2..]);
    var first, beyond := Unit(s[2..][..4]), s[2..][4..];
    assert s == "\\u" + s[2..];
    Prefixed(first.digits, beyond);
    if ParseUnicode(s[2..]).rest == beyond {
      tokens := [first] + after;
      Added(first, after, rest, s);
    } else {
      Cut(beyond[2..]);
      var second, last := Unit(beyond[2..][..4]), beyond[2..][4..];
      assert beyond == "\\u" + beyond[2..];
      Prefixed(second.digits, last);
      Added(second, after, rest, beyond);
      Added(first, [second] + after, rest, s);
      tokens := [first] + ([second] + after);
    }
  }

  lemma Added(t: Token, after: seq<Token>, rest: string, s: string)
    requires IsToken(t) && AllTokens(after) && s == TokenText(t) + From(after, rest)
    ensures AllTokens([t] + after) && s == From([t] + after, rest)
  {
    hide IsToken, From, TokenText;
    FromSplits([t] + after, rest);
    assert ([t] + after)[1..] == after;
  }

  /** What the parser takes for a string: a quote, tokens, and a quote; and the value it gives is what the tokens
      stand for. */
  lemma StringReadIff(s: string, text: string, rest: string)
    ensures ParseString(s) == Ok(text, rest) <==>
            exists tokens :: AllTokens(tokens) && s == "\"" + From(tokens, rest) && text == Meaning(tokens)
  {
    hide IsToken, From, ParseChars, Meaning;
    if ParseString(s) == Ok(text, rest) {
      var tokens := TokensOf(s[1..], "");
      TokensRead(tokens, rest, "");
      assert s == "\"" + s[1..] && "" + Meaning(tokens) == Meaning(tokens);
    }
    if exists tokens :: AllTokens(tokens) && s == "\"" + From(tokens, rest) && text == Meaning(tokens) {
      var tokens :| AllTokens(tokens) && s == "\"" + From(tokens, rest) && text == Meaning(tokens);
      TokensRead(tokens, rest, "");
      assert s[1..] == From(tokens, rest) && "" + Meaning(tokens) == Meaning(tokens);
    }
  }

  // ---------------------------------------------------------------- UTF-16

  /** The scalar values a run of UTF-16 code units stands for. */
  function DecodeUtf16(units: seq<int>): (cps: seq<int>)
    requires forall i :: 0 <= i < |units| ==> 0 <= units[i] <= 0xFFFF
    ensures AllScalars(cps)
  {
    if units == [] then []
    else if IsHighSurrogate(units[0]) && |units| >= 2 && IsLowSurrogate(units[1]) then
      [PairOf(units[0], units[1])] + DecodeUtf16(units[2..])
    else if 0xD800 <= units[0] <= 0xDFFF then [0xFFFD] + DecodeUtf16(units[1..])
    else [units[0]] + DecodeUtf16(units[1..])
  }

  function UnitsOf(tokens: seq<Token>): (units: seq<int>)
    requires AllTokens(tokens) && forall t | t in tokens :: t.Unit?
    ensures |units| == |tokens| && forall i | 0 <= i < |units| :: 0 <= units[i] <= 0xFFFF
    ensures forall i | 0 <= i < |units| :: units[i] == UnitOf(tokens[i].digits)
  {
    if tokens == [] then [] else [UnitOf(tokens[0].digits)] + UnitsOf(tokens[1..])
  }

  /** A run of `\u` escapes stands for the UTF-8 text of the characters they encode as UTF-16. */
  lemma {:induction false} RunMeans(tokens: seq<Token>)
    requires AllTokens(tokens) && forall t | t in tokens :: t.Unit?
    ensures Meaning(tokens) == EncodeAll(DecodeUtf16(UnitsOf(tokens)))
    decreases |tokens|
  {
    hide Encode, IsToken, UnitOf, PairOf, TokenMeaning, DecodeUtf16, UnitsOf, EncodeAll;
    if tokens == [] {
      NoRun();
    } else {
      assert tokens[0] in tokens;
      var units := UnitsOf(tokens);
      UnitsAfter(tokens);
      DecodeFirst(units);
      if StartsPair(tokens) {
        assert tokens[1] in tokens;
        RunMeans(tokens[2..]);
        Joined(PairOf(units[0], units[1]), DecodeUtf16(units[2..]));
      } else {
        assert |tokens| >= 2 ==> tokens[1] in tokens;
        RunMeans(tokens[1..]);
        UnitMeans(tokens[0]);
        Joined(Alone(units[0]), DecodeUtf16(units[1..]));
      }
    }
  }

  /** A character in UTF-16 (RFC 2781 section 2.1). */
  function Utf16(cp: int): (units: seq<int>)
    requires IsScalar(cp)
    ensures forall i | 0 <= i < |units| :: 0 <= units[i] <= 0xFFFF
  {
    if cp < 0x10000 then [cp] else [0xD800 + (cp - 0x10000) / 0x400, 0xDC00 + (cp - 0x10000) % 0x400]
  }

  function Utf16All(cps: seq<int>): (units: seq<int>)
    requires AllScalars(cps)
    ensures forall i | 0 <= i < |units| :: 0 <= units[i] <= 0xFFFF
  {
    if cps == [] then [] else Utf16(cps[0]) + Utf16All(cps[1..])
  }

  lemma {:induction false} Utf16Decodes(cps: seq<int>)
    requires AllScalars(cps)
    ensures DecodeUtf16(Utf16All(cps)) == cps
    decreases |cps|
  {
    if cps != [] {
      var units, rest := Utf16All(cps), Utf16All(cps[1..]);
      Utf16Decodes(cps[1..]);
      if cps[0] < 0x10000 {
        assert units[0] == cps[0] && units[1..] == rest;
      } else {
        assert units[..2] == Utf16(cps[0]) && units[2..] == rest;
        assert units[0] == 0xD800 + (cps[0] - 0x10000) / 0x400 && units[1] == 0xDC00 + (cps[0] - 0x10000) % 0x400;
      }
    }
  }

  /** Any text written as `\u` escapes of its UTF-16 is read as that text in UTF-8. */
  lemma EscapedTextMeans(tokens: seq<Token>, cps: seq<int>)
    requires AllTokens(tokens) && (forall t | t in tokens :: t.Unit?) && AllScalars(cps)
    requires UnitsOf(tokens) == Utf16All(cps)
    ensures Meaning(tokens) == EncodeAll(cps)
  {
    hide Meaning, EncodeAll, DecodeUtf16, UnitsOf, Utf16All, IsToken;
    RunMeans(tokens);
    Utf16Decodes(cps);
  }

  lemma NoRun()
    ensures Meaning([]) == "" && EncodeAll(DecodeUtf16(UnitsOf([]))) == ""
  {
  }

  /** A code unit that is half of nothing. */
  function Alone(unit: int): (cp: int)
    requires 0 <= unit <= 0xFFFF
    ensures IsScalar(cp)
  {
    if 0xD800 <= unit <= 0xDFFF then 0xFFFD else unit
  }

  lemma UnitMeans(t: Token)
    requires IsToken(t) && t.Unit?
    ensures TokenMeaning(t) == Encode(Alone(UnitOf(t.digits)))
  {
  }

  lemma UnitsAfter(tokens: seq<Token>)
    requires tokens != [] && AllTokens(tokens) && forall t | t in tokens :: t.Unit?
    ensures UnitsOf(tokens)[1..] == UnitsOf(tokens[1..])
    ensures |tokens| >= 2 ==> UnitsOf(tokens)[2..] == UnitsOf(tokens[2..])
  {
    hide UnitOf, IsToken;
  }

  lemma DecodeFirst(units: seq<int>)
    requires units != [] && forall i :: 0 <= i < |units| ==> 0 <= units[i] <= 0xFFFF
    ensures DecodeUtf16(units) ==
            if IsHighSurrogate(units[0]) && |units| >= 2 && IsLowSurrogate(units[1])
            then [PairOf(units[0], units[1])] + DecodeUtf16(units[2..])
            else [Alone(units[0])] + DecodeUtf16(units[1..])
  {
  }

  lemma Joined(cp: int, cps: seq<int>)
    requires IsScalar(cp) && AllScalars(cps)
    ensures EncodeAll([cp] + cps) == Encode(cp) + EncodeAll(cps)
  {
    hide Encode;
    assert ([cp] + cps)[1..] == cps;
  }
}
