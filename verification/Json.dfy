/** JSON documents: the values, what the parser makes of a text, and what the printer writes.
    Parsing is specified on the text still to be read; the offset of an error is kept as the number
    of bytes left. */
module Json {
  import Utf8

  /** A number is an integer of magnitude below 10^15, the range the printer writes back digit by
      digit. Any other literal is kept as its text: its double is not modelled. */
  datatype Value =
    | Null
    | Bool(truth: bool)
    | Number(n: int)
    | OtherNumber(literal: string)
    | String(text: string)
    | Array(items: seq<Value>)
    | Object(members: seq<Member>)

  datatype Member = Member(key: string, value: Value)

  const MAX_EXACT := 1_000_000_000_000_000
  const MAX_DEPTH := 200

  datatype Error =
    | UnexpectedEnd | Expected(c: char) | TrailingData | InvalidLiteral | TooDeep | ExpectedKey
    | InvalidEscape | InvalidUnicodeEscape | InvalidNumber

  datatype Parsed<+T> = Ok(value: T, rest: string) | Fail(error: Error, left: nat) {
    predicate IsFailure() { Fail? }

    function PropagateFailure<U>(): Parsed<U>
      requires Fail?
    {
      Fail(error, left)
    }

    function Extract(): (T, string)
      requires Ok?
    {
      (value, rest)
    }
  }

  // ---------------------------------------------------------------- objects

  /** Replaces a member's value in place, or adds the member at the end. */
  function SetMember(members: seq<Member>, key: string, value: Value): seq<Member> {
    if members == [] then [Member(key, value)]
    else if members[0].key == key then [Member(key, value)] + members[1..]
    else [members[0]] + SetMember(members[1..], key, value)
  }

  /** The value of the first member with this key, or null. */
  function Lookup(members: seq<Member>, key: string): Value {
    if members == [] then Null
    else if members[0].key == key then members[0].value
    else Lookup(members[1..], key)
  }

  predicate HasKey(members: seq<Member>, key: string) {
    exists i :: 0 <= i < |members| && members[i].key == key
  }

  // ---------------------------------------------------------------- characters

  predicate IsWhitespace(c: char) { c == ' ' || c == '\t' || c == '\n' || c == '\r' }

  function SkipWhitespace(s: string): (rest: string)
    ensures |rest| <= |s|
    ensures rest != [] ==> !IsWhitespace(rest[0])
  {
    if s != [] && IsWhitespace(s[0]) then SkipWhitespace(s[1..]) else s
  }

  predicate IsDigit(c: char) { '0' <= c <= '9' }

  function DigitValue(c: char): int
    requires IsDigit(c)
  {
    c as int - '0' as int
  }

  function SkipDigits(s: string): (rest: string)
    ensures |rest| <= |s|
    ensures rest != [] ==> !IsDigit(rest[0])
    ensures forall i :: 0 <= i < |s| - |rest| ==> IsDigit(s[i])
  {
    if s != [] && IsDigit(s[0]) then SkipDigits(s[1..]) else s
  }

  function DigitsValue(s: string): nat
    requires forall i :: 0 <= i < |s| ==> IsDigit(s[i])
  {
    if s == [] then 0 else DigitsValue(s[..|s| - 1]) * 10 + DigitValue(s[|s| - 1])
  }

  // ---------------------------------------------------------------- strings

  function HexValue(c: char): int {
    if '0' <= c <= '9' then c as int - '0' as int
    else if 'a' <= c <= 'f' then c as int - 'a' as int + 10
    else if 'A' <= c <= 'F' then c as int - 'A' as int + 10
    else -1
  }

  /** Four hexadecimal digits, `digits` of them still to come. */
  function ParseHex(s: string, digits: nat, value: nat): (r: Parsed<nat>)
    requires digits <= 4
    ensures r.Ok? ==> |r.rest| + digits == |s| && r.rest == s[digits..]
    ensures r.Ok? && value < Room(digits) ==> r.value < 0x10000
    decreases digits
  {
    if digits == 0 then Ok(value, s)
    else if s == [] then Fail(UnexpectedEnd, 0)
    else if HexValue(s[0]) < 0 then Fail(InvalidUnicodeEscape, |s| - 1)
    else ParseHex(s[1..], digits - 1, value * 16 + HexValue(s[0]))
  }

  /** Values below this stay below 2^16 when so many digits are added. */
  function Room(digits: nat): nat
    requires digits <= 4
  {
    if digits == 0 then 0x10000 else if digits == 1 then 0x1000 else if digits == 2 then 0x100
    else if digits == 3 then 0x10 else 1
  }

  function Pow16(n: nat): nat
    requires n <= 4
  {
    if n == 0 then 1 else if n == 1 then 0x10 else if n == 2 then 0x100 else if n == 3 then 0x1000 else 0x10000
  }

  predicate IsHighSurrogate(unit: int) { 0xD800 <= unit <= 0xDBFF }
  predicate IsLowSurrogate(unit: int) { 0xDC00 <= unit <= 0xDFFF }

  /** The encoding appended for a code point: an unpaired surrogate becomes U+FFFD. */
  function AppendedFor(codepoint: int): string
    requires 0 <= codepoint <= 0x10FFFF
  {
    Utf8.Encode(if 0xD800 <= codepoint <= 0xDFFF then 0xFFFD else codepoint)
  }

  /** What follows `\u`: four digits, and the low half of a surrogate pair if it is there. */
  function ParseUnicode(s: string): (r: Parsed<string>)
    ensures r.Ok? ==> |r.rest| < |s|
  {
    match ParseHex(s, 4, 0)
    case Fail(error, left) => Fail(error, left)
    case Ok(unit, rest) =>
      if IsHighSurrogate(unit) && |rest| >= 2 && rest[0] == '\\' && rest[1] == 'u' then
        match ParseHex(rest[2..], 4, 0)
        case Fail(error, left) => Fail(error, left)
        case Ok(low, after) =>
          if IsLowSurrogate(low) then Ok(AppendedFor(0x10000 + (unit - 0xD800) * 0x400 + (low - 0xDC00)), after)
          else Ok(AppendedFor(unit), rest)
      else Ok(AppendedFor(unit), rest)
  }

  /** A one-letter escape's meaning. */
  function Escaped(c: char): (r: string)
    ensures |r| <= 1
  {
    if c == '"' then "\""
    else if c == '\\' then "\\"
    else if c == '/' then "/"
    else if c == 'b' then [8 as char]
    else if c == 'f' then [12 as char]
    else if c == 'n' then "\n"
    else if c == 'r' then "\r"
    else if c == 't' then "\t"
    else ""
  }

  /** A string after its opening quote. */
  function ParseChars(s: string, result: string): (r: Parsed<string>)
    ensures r.Ok? ==> |r.rest| < |s|
    decreases |s|
  {
    if s == [] then Fail(UnexpectedEnd, 0)
    else if s[0] == '"' then Ok(result, s[1..])
    else if s[0] != '\\' then ParseChars(s[1..], result + [s[0]])
    else if |s| == 1 then Fail(UnexpectedEnd, 0)
    else if s[1] == 'u' then
      match ParseUnicode(s[2..])
      case Fail(error, left) => Fail(error, left)
      case Ok(appended, rest) => ParseChars(rest, result + appended)
    else if Escaped(s[1]) == "" then Fail(InvalidEscape, |s| - 2)
    else ParseChars(s[2..], result + Escaped(s[1]))
  }

  function ParseString(s: string): (r: Parsed<string>)
    ensures r.Ok? ==> |r.rest| < |s|
  {
    if s == [] || s[0] != '"' then Fail(Expected('"'), |s|) else ParseChars(s[1..], "")
  }

  // ---------------------------------------------------------------- numbers

  /** The length of a number literal's integer, fraction and exponent parts: what is left after it. */
  function AfterFraction(s: string): (rest: string)
    ensures |rest| <= |s|
  {
    if s != [] && s[0] == '.' then SkipDigits(s[1..]) else s
  }

  function AfterExponent(s: string): (rest: string)
    ensures |rest| <= |s|
  {
    if s != [] && (s[0] == 'e' || s[0] == 'E') then
      var t := s[1..];
      SkipDigits(if t != [] && (t[0] == '+' || t[0] == '-') then t[1..] else t)
    else s
  }

  function ParseNumber(s: string): (r: Parsed<Value>)
    ensures r.Ok? ==> |r.rest| < |s|
  {
    var negative := s != [] && s[0] == '-';
    var t := if negative then s[1..] else s;
    if t == [] || !IsDigit(t[0]) then Fail(InvalidNumber, |t|)
    else
      var afterDigits := SkipDigits(t);
      var rest := AfterExponent(AfterFraction(afterDigits));
      var magnitude: int := DigitsValue(t[..|t| - |afterDigits|]);
      Ok(if rest == afterDigits && magnitude < MAX_EXACT then Number(if negative then -magnitude else magnitude)
         else OtherNumber(s[..|s| - |rest|]), rest)
  }

  // ---------------------------------------------------------------- values

  function ParseLiteral(s: string, literal: string, value: Value): (r: Parsed<Value>)
    requires literal != []
    ensures r.Ok? ==> |r.rest| < |s|
  {
    if literal <= s then Ok(value, s[|literal|..]) else Fail(InvalidLiteral, |s|)
  }

  function ParseValue(text: string, depth: nat): (r: Parsed<Value>)
    ensures r.Ok? ==> |r.rest| < |text|
    decreases |text|, 2
  {
    var s := SkipWhitespace(text);
    if s == [] then Fail(UnexpectedEnd, 0)
    else if s[0] == '{' then ParseObject(s, depth)
    else if s[0] == '[' then ParseArray(s, depth)
    else if s[0] == '"' then
      match ParseString(s)
      case Fail(error, left) => Fail(error, left)
      case Ok(content, rest) => Ok(String(content), rest)
    else if s[0] == 't' then ParseLiteral(s, "true", Bool(true))
    else if s[0] == 'f' then ParseLiteral(s, "false", Bool(false))
    else if s[0] == 'n' then ParseLiteral(s, "null", Null)
    else ParseNumber(s)
  }

  function ParseObject(s: string, depth: nat): (r: Parsed<Value>)
    requires s != [] && s[0] == '{'
    ensures r.Ok? ==> |r.rest| < |s|
    decreases |s|, 1
  {
    if depth + 1 > MAX_DEPTH then Fail(TooDeep, |s|)
    else
      var t := SkipWhitespace(s[1..]);
      if t != [] && t[0] == '}' then Ok(Object([]), t[1..]) else ParseMembers(t, depth + 1, [])
  }

  /** A member's key and the colon after it. */
  function ParseKey(text: string): (r: Parsed<string>)
    ensures r.Ok? ==> |r.rest| < |text|
  {
    var s := SkipWhitespace(text);
    if s == [] then Fail(UnexpectedEnd, 0)
    else if s[0] != '"' then Fail(ExpectedKey, |s|)
    else
      match ParseString(s)
      case Fail(error, left) => Fail(error, left)
      case Ok(key, afterKey) =>
        var colon := SkipWhitespace(afterKey);
        if colon == [] || colon[0] != ':' then Fail(Expected(':'), |colon|) else Ok(key, colon[1..])
  }

  /** An object from its next member's key on. */
  function ParseMembers(text: string, depth: nat, members: seq<Member>): (r: Parsed<Value>)
    ensures r.Ok? ==> |r.rest| < |text|
    decreases |text|, 3
  {
    match ParseKey(text)
    case Fail(error, left) => Fail(error, left)
    case Ok(key, afterColon) =>
      match ParseValue(afterColon, depth)
      case Fail(error, left) => Fail(error, left)
      case Ok(value, afterValue) =>
        var more := SetMember(members, key, value);
        var next := SkipWhitespace(afterValue);
        if next != [] && next[0] == ',' then ParseMembers(next[1..], depth, more)
        else if next != [] && next[0] == '}' then Ok(Object(more), next[1..])
        else Fail(Expected('}'), |next|)
  }

  function ParseArray(s: string, depth: nat): (r: Parsed<Value>)
    requires s != [] && s[0] == '['
    ensures r.Ok? ==> |r.rest| < |s|
    decreases |s|, 1
  {
    if depth + 1 > MAX_DEPTH then Fail(TooDeep, |s|)
    else
      var t := SkipWhitespace(s[1..]);
      if t != [] && t[0] == ']' then Ok(Array([]), t[1..]) else ParseItems(t, depth + 1, [])
  }

  /** An array from its next item on. */
  function ParseItems(text: string, depth: nat, items: seq<Value>): (r: Parsed<Value>)
    ensures r.Ok? ==> |r.rest| < |text|
    decreases |text|, 3
  {
    match ParseValue(text, depth)
    case Fail(error, left) => Fail(error, left)
    case Ok(value, afterValue) =>
      var next := SkipWhitespace(afterValue);
      if next != [] && next[0] == ',' then ParseItems(next[1..], depth, items + [value])
      else if next != [] && next[0] == ']' then Ok(Array(items + [value]), next[1..])
      else Fail(Expected(']'), |next|)
  }

  function ParseDocument(text: string): Parsed<Value> {
    match ParseValue(SkipWhitespace(text), 0)
    case Fail(error, left) => Fail(error, left)
    case Ok(value, rest) =>
      var end := SkipWhitespace(rest);
      if end == [] then Ok(value, end) else Fail(TrailingData, |end|)
  }

  // ---------------------------------------------------------------- printing

  function HexDigit(n: int): char
    requires 0 <= n < 16
  {
    if n < 10 then ('0' as int + n) as char else ('a' as int + n - 10) as char
  }

  function EscapeChar(c: char): (s: string)
    ensures |s| > 0
  {
    if c == '"' then "\\\""
    else if c == '\\' then "\\\\"
    else if c == 8 as char then "\\b"
    else if c == 12 as char then "\\f"
    else if c == '\n' then "\\n"
    else if c == '\r' then "\\r"
    else if c == '\t' then "\\t"
    else if c as int < 0x20 then ['\\', 'u', '0', '0', HexDigit(c as int / 16), HexDigit(c as int % 16)]
    else [c]
  }

  function EscapeText(s: string): string {
    if s == [] then "" else EscapeChar(s[0]) + EscapeText(s[1..])
  }

  function Quoted(s: string): string { "\"" + EscapeText(s) + "\"" }

  function NatText(n: nat): (s: string)
    ensures s != [] && forall i :: 0 <= i < |s| ==> IsDigit(s[i])
    ensures DigitsValue(s) == n && (s[0] == '0' ==> n == 0 && |s| == 1)
  {
    if n < 10 then [('0' as int + n) as char] else
      var s := NatText(n / 10) + [('0' as int + n % 10) as char];
      assert s[..|s| - 1] == NatText(n / 10);
      s
  }

  function IntText(n: int): string { if n < 0 then "-" + NatText(-n) else NatText(n) }

  function Spaces(n: nat): (s: string)
    ensures |s| == n && forall i :: 0 <= i < n ==> s[i] == ' '
  {
    seq(n, _ => ' ')
  }

  function LineBreak(indent: int, level: nat): string {
    if indent > 0 then "\n" + Spaces(indent * level) else ""
  }

  function Colon(indent: int): string { if indent > 0 then ": " else ":" }

  /** Numbers the printer writes exactly. */
  predicate AllExact(v: Value) {
    match v
    case Number(n) => -MAX_EXACT < n < MAX_EXACT
    case OtherNumber(_) => false
    case Array(items) => forall i :: 0 <= i < |items| ==> AllExact(items[i])
    case Object(members) => forall i :: 0 <= i < |members| ==> AllExact(members[i].value)
    case _ => true
  }

  function Dump(v: Value, indent: int, level: nat): string
    requires AllExact(v)
  {
    match v
    case Null => "null"
    case Bool(truth) => if truth then "true" else "false"
    case Number(n) => IntText(n)
    case String(text) => Quoted(text)
    case Array(items) =>
      if items == [] then "[]" else "[" + DumpItems(items, indent, level) + LineBreak(indent, level) + "]"
    case Object(members) =>
      if members == [] then "{}" else "{" + DumpMembers(members, indent, level) + LineBreak(indent, level) + "}"
  }

  /** The items with the comma between them, each on its own line one level in. */
  function DumpItems(items: seq<Value>, indent: int, level: nat): string
    requires items != [] && forall i :: 0 <= i < |items| ==> AllExact(items[i])
  {
    LineBreak(indent, level + 1) + Dump(items[0], indent, level + 1)
    + if |items| == 1 then "" else "," + DumpItems(items[1..], indent, level)
  }

  function DumpMembers(members: seq<Member>, indent: int, level: nat): string
    requires members != [] && forall i :: 0 <= i < |members| ==> AllExact(members[i].value)
  {
    LineBreak(indent, level + 1) + Quoted(members[0].key) + Colon(indent)
    + Dump(members[0].value, indent, level + 1)
    + if |members| == 1 then "" else "," + DumpMembers(members[1..], indent, level)
  }
}
