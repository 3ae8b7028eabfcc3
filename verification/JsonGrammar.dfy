/** Which texts are JSON documents, and of what value: the grammar of RFC 8259 (sections 2 to 7), with the white space
    and the spelling of every token free. The parser takes exactly these texts. Of a number it takes more than the
    RFC: leading zeros, and a fraction or an exponent without digits. */
module JsonGrammar {
  import opened Wrappers
  import opened Json
  import opened JsonUnicode
  import JsonRoundTrip

  // ---------------------------------------------------------------- the grammar

  /** White space, as it may stand before and after any token (section 2). */
  predicate IsGap(g: string) {
    forall i | 0 <= i < |g| :: g[i] == ' ' || g[i] == '\t' || g[i] == '\n' || g[i] == '\r'
  }

  predicate AreDigits(s: string) {
    forall i | 0 <= i < |s| :: '0' <= s[i] <= '9'
  }

  datatype Exponent = Exponent(mark: char, sign: string, digits: string)

  /** A spelling of a value. `inside` is what stands between the brackets of an empty array or object. */
  datatype Tree =
    | Word(value: Value)
    | Numeral(minus: bool, digits: string, fraction: Option<string>, exponent: Option<Exponent>)
    | Quote(tokens: seq<Token>)
    | Brackets(inside: string, items: seq<Item>)
    | Braces(inside: string, fields: seq<Field>)

  datatype Item = Item(before: string, tree: Tree, after: string)
  datatype Field = Field(before: string, key: seq<Token>, beforeColon: string, afterColon: string, tree: Tree,
                         after: string)

  predicate IsExponent(e: Exponent) {
    && (e.mark == 'e' || e.mark == 'E') && (e.sign == "" || e.sign == "+" || e.sign == "-") && AreDigits(e.digits)
  }

  predicate Grammatical(t: Tree) {
    match t
    case Word(v) => v == Null || v.Bool?
    case Numeral(_, digits, fraction, exponent) =>
      && digits != "" && AreDigits(digits)
      && (fraction.Some? ==> AreDigits(fraction.value))
      && (exponent.Some? ==> IsExponent(exponent.value))
    case Quote(tokens) => AllTokens(tokens)
    case Brackets(inside, items) =>
      IsGap(inside) && forall i | 0 <= i < |items| :: Around(items[i]) && Grammatical(items[i].tree)
    case Braces(inside, fields) =>
      IsGap(inside) && forall i | 0 <= i < |fields| :: AroundField(fields[i]) && Grammatical(fields[i].tree)
  }

  predicate Around(item: Item) { IsGap(item.before) && IsGap(item.after) }

  predicate AroundField(f: Field) {
    IsGap(f.before) && AllTokens(f.key) && IsGap(f.beforeColon) && IsGap(f.afterColon) && IsGap(f.after)
  }

  // ---------------------------------------------------------------- the text

  function ExponentText(e: Exponent, rest: string): string { [e.mark] + (e.sign + (e.digits + rest)) }

  function AfterInteger(t: Tree, rest: string): string
    requires t.Numeral?
  {
    var end := if t.exponent.Some? then ExponentText(t.exponent.value, rest) else rest;
    if t.fraction.Some? then "." + (t.fraction.value + end) else end
  }

  /** The text of a spelling, with what follows it. */
  function Spell(t: Tree, rest: string): string {
    match t
    case Word(v) => (if v == Null then "null" else if v == Bool(true) then "true" else "false") + rest
    case Numeral(minus, digits, _, _) => (if minus then "-" else "") + (digits + AfterInteger(t, rest))
    case Quote(tokens) => "\"" + From(tokens, rest)
    case Brackets(inside, items) =>
      "[" + if items == [] then inside + ("]" + rest) else SpellItems(items, "]" + rest)
    case Braces(inside, fields) =>
      "{" + if fields == [] then inside + ("}" + rest) else SpellFields(fields, "}" + rest)
  }

  function SpellItems(items: seq<Item>, rest: string): string
    requires items != []
    decreases items, 1
  {
    items[0].before + Spell(items[0].tree, AfterItem(items, rest))
  }

  function AfterItem(items: seq<Item>, rest: string): string
    requires items != []
    decreases items, 0
  {
    items[0].after + if |items| == 1 then rest else "," + SpellItems(items[1..], rest)
  }

  function SpellFields(fields: seq<Field>, rest: string): string
    requires fields != []
    decreases fields, 1
  {
    fields[0].before
    + ("\"" + From(fields[0].key, fields[0].beforeColon
                                  + (":" + (fields[0].afterColon + Spell(fields[0].tree, AfterField(fields, rest))))))
  }

  function AfterField(fields: seq<Field>, rest: string): string
    requires fields != []
    decreases fields, 0
  {
    fields[0].after + if |fields| == 1 then rest else "," + SpellFields(fields[1..], rest)
  }

  // ---------------------------------------------------------------- the value

  /** A literal without fraction and exponent, below 10^15, is that integer; any other is kept as it is written. */
  function ValueOf(t: Tree): Value
    requires Grammatical(t)
  {
    match t
    case Word(v) => v
    case Numeral(minus, digits, fraction, exponent) =>
      var magnitude: int := DigitsValue(digits);
      if fraction == None && exponent == None && magnitude < 1_000_000_000_000_000 then
        Number(if minus then -magnitude else magnitude)
      else OtherNumber(Spell(t, ""))
    case Quote(tokens) => String(Meaning(tokens))
    case Brackets(_, items) => Array(ValuesOf(items))
    case Braces(_, fields) => Object(Gathered(fields, []))
  }

  function ValuesOf(items: seq<Item>): seq<Value>
    requires forall i | 0 <= i < |items| :: Grammatical(items[i].tree)
  {
    if items == [] then [] else [ValueOf(items[0].tree)] + ValuesOf(items[1..])
  }

  /** The members added one after the other: a key seen before gets the later value. */
  function Gathered(fields: seq<Field>, members: seq<Member>): seq<Member>
    requires forall i | 0 <= i < |fields| :: AroundField(fields[i]) && Grammatical(fields[i].tree)
  {
    if fields == [] then members else
      assert AroundField(fields[0]);
      Gathered(fields[1..], SetMember(members, Meaning(fields[0].key), ValueOf(fields[0].tree)))
  }

  /** How many brackets and braces are open at once. */
  function Depth(t: Tree): nat {
    match t
    case Brackets(_, items) => 1 + DepthOfItems(items)
    case Braces(_, fields) => 1 + DepthOfFields(fields)
    case _ => 0
  }

  function DepthOfItems(items: seq<Item>): nat {
    if items == [] then 0 else
      var first, rest := Depth(items[0].tree), DepthOfItems(items[1..]);
      if first > rest then first else rest
  }

  function DepthOfFields(fields: seq<Field>): nat {
    if fields == [] then 0 else
      var first, rest := Depth(fields[0].tree), DepthOfFields(fields[1..]);
      if first > rest then first else rest
  }

  /** What may follow a spelling without being taken for a part of it: only a number can go on. */
  predicate CanFollow(t: Tree, rest: string) {
    t.Numeral? && rest != "" ==>
      && !('0' <= rest[0] <= '9')
      && (rest[0] == '.' ==> t.fraction.Some? || t.exponent.Some?)
      && (rest[0] == 'e' || rest[0] == 'E' ==> t.exponent.Some?)
      && (t.exponent.Some? && t.exponent.value.sign == "" && t.exponent.value.digits == "" ==>
            rest[0] != '+' && rest[0] != '-')
  }

  // ---------------------------------------------------------------- white space

  lemma {:induction false} SkipsGap(g: string, rest: string)
    requires IsGap(g)
    ensures SkipWhitespace(g + rest) == SkipWhitespace(rest)
  {
    if g == "" {
      assert g + rest == rest;
    } else {
      assert (g + rest)[1..] == g[1..] + rest;
      SkipsGap(g[1..], rest);
    }
  }

  /** White space up to something that is none. */
  lemma SkipsTo(g: string, rest: string)
    requires IsGap(g)
    requires rest != "" ==> rest[0] != ' ' && rest[0] != '\t' && rest[0] != '\n' && rest[0] != '\r'
    ensures SkipWhitespace(g + rest) == rest
  {
    SkipsGap(g, rest);
  }

  lemma {:induction false} GapBefore(s: string) returns (g: string)
    ensures IsGap(g) && s == g + SkipWhitespace(s)
  {
    if s != "" && IsWhitespace(s[0]) {
      var more := GapBefore(s[1..]);
      g := [s[0]] + more;
    } else {
      g := "";
    }
  }

  // ---------------------------------------------------------------- numbers

  lemma {:induction false} SkipsDigits(digits: string, rest: string)
    requires AreDigits(digits) && (rest != "" ==> !('0' <= rest[0] <= '9'))
    ensures SkipDigits(digits + rest) == rest
  {
    if digits == "" {
      assert digits + rest == rest;
    } else {
      assert (digits + rest)[1..] == digits[1..] + rest;
      SkipsDigits(digits[1..], rest);
    }
  }

  lemma {:induction false} DigitsBefore(s: string) returns (digits: string)
    ensures AreDigits(digits) && s == digits + SkipDigits(s)
    ensures s != "" && IsDigit(s[0]) ==> digits != ""
  {
    if s != "" && IsDigit(s[0]) {
      var more := DigitsBefore(s[1..]);
      digits := [s[0]] + more;
    } else {
      digits := "";
    }
  }

  lemma ExponentReads(e: Exponent, rest: string)
    requires IsExponent(e) && (rest != "" ==> !('0' <= rest[0] <= '9'))
    requires e.sign == "" && e.digits == "" && rest != "" ==> rest[0] != '+' && rest[0] != '-'
    ensures AfterExponent(ExponentText(e, rest)) == rest
  {
    hide SkipDigits;
    var s := ExponentText(e, rest);
    var t := e.sign + (e.digits + rest);
    assert s[1..] == t;
    if e.sign != "" { assert t[1..] == e.digits + rest; } else { assert t == e.digits + rest; }
    SkipsDigits(e.digits, rest);
  }

  /** What stands after the digits of a number, and how it is skipped. */
  lemma AfterIntegerReads(t: Tree, rest: string)
    requires t.Numeral? && Grammatical(t) && CanFollow(t, rest)
    ensures var after := AfterInteger(t, rest);
            && AfterExponent(AfterFraction(after)) == rest
            && (after != "" ==> !('0' <= after[0] <= '9'))
            && (after == rest <==> t.fraction == None && t.exponent == None)
  {
    hide SkipDigits, AfterExponent;
    var end := if t.exponent.Some? then ExponentText(t.exponent.value, rest) else rest;
    if t.exponent.Some? { ExponentReads(t.exponent.value, rest); } else { NoExponent(rest); }
    if t.fraction.Some? {
      var after := AfterInteger(t, rest);
      assert after[1..] == t.fraction.value + end;
      SkipsDigits(t.fraction.value, end);
      assert |after| > |rest|;
    }
  }

  lemma NoExponent(rest: string)
    requires rest != "" ==> rest[0] != 'e' && rest[0] != 'E'
    ensures AfterExponent(rest) == rest
  {
  }

  lemma {:induction false} SpelledNumeral(t: Tree, rest: string)
    requires t.Numeral?
    ensures Spell(t, rest) == Spell(t, "") + rest
  {
  }

  lemma NumberParts(minus: bool, digits: string, after: string, rest: string)
    requires digits != "" && AreDigits(digits) && SkipDigits(digits + after) == after
    requires AfterExponent(AfterFraction(after)) == rest
    ensures var s := (if minus then "-" else "") + (digits + after);
            var magnitude: int := DigitsValue(digits);
            && |rest| <= |s|
            && ParseNumber(s) == Ok(if rest == after && magnitude < 1_000_000_000_000_000
                                    then Number(if minus then -magnitude else magnitude)
                                    else OtherNumber(s[..|s| - |rest|]), rest)
  {
    hide SkipDigits, AfterExponent, AfterFraction, DigitsValue;
    var s := (if minus then "-" else "") + (digits + after);
    var unsigned := digits + after;
    assert unsigned[..|unsigned| - |after|] == digits;
    assert unsigned[0] == digits[0];
    if minus { assert s[1..] == unsigned; } else { assert s == unsigned; }
  }

  lemma NumeralReads(t: Tree, rest: string)
    requires t.Numeral? && Grammatical(t) && CanFollow(t, rest)
    ensures ParseNumber(Spell(t, rest)) == Ok(ValueOf(t), rest)
  {
    hide SkipDigits, AfterExponent, AfterFraction, DigitsValue, AfterInteger, ParseNumber, IsExponent, AreDigits;
    AfterIntegerReads(t, rest);
    SkipsDigits(t.digits, AfterInteger(t, rest));
    NumberParts(t.minus, t.digits, AfterInteger(t, rest), rest);
    SpelledNumeral(t, rest);
    assert (Spell(t, "") + rest)[..|Spell(t, "")|] == Spell(t, "");
  }

  // ---------------------------------------------------------------- every spelling is read

  lemma SpellStarts(t: Tree, rest: string)
    requires Grammatical(t)
    ensures var s := Spell(t, rest);
            && s != "" && s[0] != ' ' && s[0] != '\t' && s[0] != '\n' && s[0] != '\r' && s[0] != ']'
            && (t.Brackets? <==> s[0] == '[') && (t.Braces? <==> s[0] == '{') && (t.Quote? <==> s[0] == '"')
            && (t.Numeral? <==> s[0] == '-' || '0' <= s[0] <= '9')
            && (t.Word? ==> s[0] == 't' || s[0] == 'f' || s[0] == 'n')
  {
    hide SpellItems, SpellFields, From, AfterInteger, DigitsValue;
  }

  lemma WordReads(v: Value, rest: string, depth: nat)
    requires Grammatical(Word(v))
    ensures ParseValue(Spell(Word(v), rest), depth) == Ok(v, rest)
  {
    hide ParseObject, ParseArray, ParseString, ParseNumber;
    var word := if v == Null then "null" else if v == Bool(true) then "true" else "false";
    var text := word + rest;
    assert text[0] == word[0] && text[..|word|] == word && text[|word|..] == rest;
    assert SkipWhitespace(text) == text;
  }

  lemma OtherScalarReads(t: Tree, rest: string, depth: nat)
    requires t.Numeral? || t.Quote?
    requires Grammatical(t) && CanFollow(t, rest)
    ensures ParseValue(Spell(t, rest), depth) == Ok(ValueOf(t), rest)
  {
    hide ParseObject, ParseArray, ParseString, ParseNumber, ParseLiteral, SpellItems, SpellFields, SkipWhitespace,
         CanFollow, From, AfterInteger, DigitsValue, Meaning, AllTokens, AreDigits;
    var text := Spell(t, rest);
    SpellStarts(t, rest);
    SkipsTo("", text);
    assert "" + text == text;
    if t.Numeral? { NumeralReads(t, rest); } else { QuoteReads(t.tokens, rest); }
  }

  lemma QuoteReads(tokens: seq<Token>, rest: string)
    requires AllTokens(tokens)
    ensures ParseString("\"" + From(tokens, rest)) == Ok(Meaning(tokens), rest)
  {
    hide ParseString, From, Meaning, AllTokens;
    StringReadIff("\"" + From(tokens, rest), Meaning(tokens), rest);
  }

  /** A value after white space. */
  lemma SpacedReads(g: string, t: Tree, rest: string, depth: nat)
    requires IsGap(g) && Grammatical(t)
    ensures ParseValue(g + Spell(t, rest), depth) == ParseValue(Spell(t, rest), depth)
  {
    hide Spell, ParseValue;
    SpellStarts(t, rest);
    SkipsTo(g, Spell(t, rest));
    JsonRoundTrip.SkipsOnce(g + Spell(t, rest), depth);
  }

  /** What follows an item: white space, and then a comma or the closing bracket. */
  lemma AfterClosing(g: string, t: Tree, end: string)
    requires IsGap(g) && end != "" && (end[0] == ',' || end[0] == ']' || end[0] == '}')
    ensures CanFollow(t, g + end) && SkipWhitespace(g + end) == end
  {
    SkipsTo(g, end);
    if g == "" { assert g + end == end; } else { assert (g + end)[0] == g[0]; }
  }

  lemma ItemTurn(text: string, depth: nat, before: seq<Value>, value: Value, afterValue: string)
    requires ParseValue(text, depth) == Ok(value, afterValue)
    ensures var next := SkipWhitespace(afterValue);
            ParseItems(text, depth, before) ==
            if next != [] && next[0] == ',' then ParseItems(next[1..], depth, before + [value])
            else if next != [] && next[0] == ']' then Ok(Array(before + [value]), next[1..])
            else Fail(Expected(']'), |next|)
  {
    hide ParseValue, SkipWhitespace;
  }

  lemma {:induction false} ItemsRead(items: seq<Item>, rest: string, depth: nat, before: seq<Value>)
    requires items != [] && forall i | 0 <= i < |items| :: Around(items[i]) && Grammatical(items[i].tree)
    requires depth + DepthOfItems(items) <= 200
    ensures ParseItems(SpellItems(items, "]" + rest), depth, before) == Ok(Array(before + ValuesOf(items)), rest)
    decreases items, 0
  {
    hide Spell, ParseValue, ParseItems, Grammatical, IsGap, SkipWhitespace, CanFollow, Depth, ValueOf, ValuesOf;
    var text, after := SpellItems(items, "]" + rest), AfterItem(items, "]" + rest);
    var t, value := items[0].tree, ValueOf(items[0].tree);
    assert Around(items[0]) && Grammatical(items[0].tree);
    var end := if |items| == 1 then "]" + rest else "," + SpellItems(items[1..], "]" + rest);
    AfterClosing(items[0].after, t, end);
    SpacedReads(items[0].before, t, after, depth);
    TreeReads(t, after, depth);
    ItemTurn(text, depth, before, value, after);
    FirstValue(items, before);
    if |items| == 1 {
      assert ("]" + rest)[1..] == rest;
    } else {
      assert end[1..] == SpellItems(items[1..], "]" + rest);
      ItemsRead(items[1..], rest, depth, before + [value]);
    }
  }

  lemma FirstValue(items: seq<Item>, before: seq<Value>)
    requires items != [] && forall i | 0 <= i < |items| :: Grammatical(items[i].tree)
    ensures before + ValuesOf(items) == (before + [ValueOf(items[0].tree)]) + ValuesOf(items[1..])
    ensures |items| == 1 ==> before + ValuesOf(items) == before + [ValueOf(items[0].tree)]
  {
    hide Grammatical, ValueOf, ValuesOf;
    ValuesAre(items);
    var value, rest := ValueOf(items[0].tree), ValuesOf(items[1..]);
    assert before + ([value] + rest) == (before + [value]) + rest;
    assert rest == [] ==> [value] + rest == [value];
  }

  lemma ValuesAre(items: seq<Item>)
    requires items != [] && forall i | 0 <= i < |items| :: Grammatical(items[i].tree)
    ensures ValuesOf(items) == [ValueOf(items[0].tree)] + ValuesOf(items[1..])
    ensures |items| == 1 ==> ValuesOf(items[1..]) == []
  {
    hide Grammatical, ValueOf;
  }

  lemma BracketsRead(inside: string, items: seq<Item>, rest: string, depth: nat)
    requires Grammatical(Brackets(inside, items)) && depth + 1 <= 200
    requires items != [] ==>
               ParseItems(SpellItems(items, "]" + rest), depth + 1, []) == Ok(Array(ValuesOf(items)), rest)
    ensures ParseValue(Spell(Brackets(inside, items), rest), depth) == Ok(Array(ValuesOf(items)), rest)
  {
    hide ParseValue, ParseItems, SkipWhitespace, IsGap, ValuesOf;
    var text := Spell(Brackets(inside, items), rest);
    JsonRoundTrip.ValueIsContainer(text, depth);
    if items == [] {
      assert text[1..] == inside + ("]" + rest);
      SkipsTo(inside, "]" + rest);
      assert ("]" + rest)[1..] == rest;
      NoValues();
    } else {
      assert text[1..] == SpellItems(items, "]" + rest);
      ItemsStart(items, "]" + rest);
      JsonRoundTrip.ItemsSkip(text[1..], depth + 1);
    }
  }

  lemma NoValues()
    ensures ValuesOf([]) == []
  {
  }

  lemma ItemsStart(items: seq<Item>, rest: string)
    requires items != [] && Around(items[0]) && Grammatical(items[0].tree)
    ensures var s := SkipWhitespace(SpellItems(items, rest)); s != "" && s[0] != ']'
  {
    hide Spell, SkipWhitespace, Grammatical, IsGap;
    SpellStarts(items[0].tree, AfterItem(items, rest));
    SkipsTo(items[0].before, Spell(items[0].tree, AfterItem(items, rest)));
  }

  lemma KeyTurn(g: string, key: seq<Token>, g2: string, more: string)
    requires IsGap(g) && AllTokens(key) && IsGap(g2)
    ensures ParseKey(g + ("\"" + From(key, g2 + (":" + more)))) == Ok(Meaning(key), more)
  {
    hide ParseString, From, SkipWhitespace, IsGap, AllTokens, Meaning;
    var afterKey := g2 + (":" + more);
    SkipsTo(g, "\"" + From(key, afterKey));
    QuoteReads(key, afterKey);
    SkipsTo(g2, ":" + more);
    assert (":" + more)[1..] == more;
  }

  lemma FieldTurn(text: string, depth: nat, before: seq<Member>, key: string, afterColon: string, value: Value,
                  afterValue: string)
    requires ParseKey(text) == Ok(key, afterColon) && ParseValue(afterColon, depth) == Ok(value, afterValue)
    ensures var next := SkipWhitespace(afterValue);
            var more := SetMember(before, key, value);
            ParseMembers(text, depth, before) ==
            if next != [] && next[0] == ',' then ParseMembers(next[1..], depth, more)
            else if next != [] && next[0] == '}' then Ok(Object(more), next[1..])
            else Fail(Expected('}'), |next|)
  {
    hide ParseKey, ParseValue, SkipWhitespace, SetMember;
  }

  lemma {:induction false} FieldsRead(fields: seq<Field>, rest: string, depth: nat, before: seq<Member>)
    requires fields != [] && forall i | 0 <= i < |fields| :: AroundField(fields[i]) && Grammatical(fields[i].tree)
    requires depth + DepthOfFields(fields) <= 200
    ensures ParseMembers(SpellFields(fields, "}" + rest), depth, before) == Ok(Object(Gathered(fields, before)), rest)
    decreases fields, 0
  {
    hide Spell, ParseValue, ParseMembers, Grammatical, IsGap, SkipWhitespace, CanFollow, Depth, ValueOf, From, ParseKey,
         SetMember, AllTokens, Meaning;
    var text, after := SpellFields(fields, "}" + rest), AfterField(fields, "}" + rest);
    var f := fields[0];
    assert AroundField(f) && Grammatical(f.tree);
    var end := if |fields| == 1 then "}" + rest else "," + SpellFields(fields[1..], "}" + rest);
    AfterClosing(f.after, f.tree, end);
    KeyTurn(f.before, f.key, f.beforeColon, f.afterColon + Spell(f.tree, after));
    SpacedReads(f.afterColon, f.tree, after, depth);
    TreeReads(f.tree, after, depth);
    FieldTurn(text, depth, before, Meaning(f.key), f.afterColon + Spell(f.tree, after), ValueOf(f.tree), after);
    var more := SetMember(before, Meaning(f.key), ValueOf(f.tree));
    assert Gathered(fields, before) == Gathered(fields[1..], more);
    if |fields| == 1 {
      assert ("}" + rest)[1..] == rest;
    } else {
      assert end[1..] == SpellFields(fields[1..], "}" + rest);
      FieldsRead(fields[1..], rest, depth, more);
    }
  }

  lemma BracesRead(inside: string, fields: seq<Field>, rest: string, depth: nat)
    requires Grammatical(Braces(inside, fields)) && depth + 1 <= 200
    requires fields != [] ==>
               ParseMembers(SpellFields(fields, "}" + rest), depth + 1, []) == Ok(Object(Gathered(fields, [])), rest)
    ensures ParseValue(Spell(Braces(inside, fields), rest), depth) == Ok(Object(Gathered(fields, [])), rest)
  {
    hide ParseValue, ParseMembers, SkipWhitespace, IsGap, Gathered;
    var text := Spell(Braces(inside, fields), rest);
    JsonRoundTrip.ValueIsContainer(text, depth);
    if fields == [] {
      assert text[1..] == inside + ("}" + rest);
      SkipsTo(inside, "}" + rest);
      assert ("}" + rest)[1..] == rest;
      NothingGathered();
    } else {
      assert text[1..] == SpellFields(fields, "}" + rest);
      FieldsStart(fields, "}" + rest);
      JsonRoundTrip.MembersSkip(text[1..], depth + 1);
    }
  }

  lemma NothingGathered()
    ensures Gathered([], []) == []
  {
  }

  lemma FieldsStart(fields: seq<Field>, rest: string)
    requires fields != [] && AroundField(fields[0])
    ensures var s := SkipWhitespace(SpellFields(fields, rest)); s != "" && s[0] == '"'
  {
    hide Spell, SkipWhitespace, IsGap, From;
    var f := fields[0];
    var value := Spell(f.tree, AfterField(fields, rest));
    SkipsTo(f.before, "\"" + From(f.key, f.beforeColon + (":" + (f.afterColon + value))));
  }

  /** Every spelling of a value is read as that value, wherever in a text it stands. */
  lemma {:induction false} TreeReads(t: Tree, rest: string, depth: nat)
    requires Grammatical(t) && depth + Depth(t) <= 200 && CanFollow(t, rest)
    ensures ParseValue(Spell(t, rest), depth) == Ok(ValueOf(t), rest)
    decreases t, 1
  {
    hide ParseValue, Spell, ParseItems, ParseMembers, SpellItems, SpellFields, CanFollow, IsGap;
    match t {
      case Word(v) => WordReads(v, rest, depth);
      case Brackets(inside, items) =>
        if items != [] {
          ItemsRead(items, rest, depth + 1, []);
          assert [] + ValuesOf(items) == ValuesOf(items);
        }
        BracketsRead(inside, items, rest, depth);
      case Braces(inside, fields) =>
        if fields != [] { FieldsRead(fields, rest, depth + 1, []); }
        BracesRead(inside, fields, rest, depth);
      case _ => OtherScalarReads(t, rest, depth);
    }
  }

  // ---------------------------------------------------------------- nothing else is read

  lemma NumeralOf(s: string) returns (t: Tree)
    requires ParseNumber(s).Ok?
    ensures t.Numeral? && Grammatical(t) && s == Spell(t, ParseNumber(s).rest) && ValueOf(t) == ParseNumber(s).value
  {
    hide SkipDigits, AfterExponent, AfterFraction, DigitsValue, IsExponent, AreDigits, ExponentText;
    var minus := s[0] == '-';
    var unsigned := if minus then s[1..] else s;
    var digits := DigitsBefore(unsigned);
    var after := SkipDigits(unsigned);
    var fraction := FractionOf(after);
    var exponent := ExponentOf(AfterFraction(after));
    t := Numeral(minus, digits, fraction, exponent);
    assert s == (if minus then "-" else "") + unsigned;
    NumeralIs(t, after);
  }

  lemma NumeralIs(t: Tree, after: string)
    requires t.Numeral? && Grammatical(t) && SkipDigits(t.digits + after) == after
    requires var end := AfterFraction(after);
             var rest := AfterExponent(end);
             && |rest| <= |end| <= |after|
             && (t.fraction == None ==> end == after)
             && (t.fraction.Some? ==> after == "." + (t.fraction.value + end))
             && (t.exponent == None ==> rest == end)
             && (t.exponent.Some? ==> end == ExponentText(t.exponent.value, rest))
    ensures var s := (if t.minus then "-" else "") + (t.digits + after);
            var rest := AfterExponent(AfterFraction(after));
            s == Spell(t, rest) && ParseNumber(s) == Ok(ValueOf(t), rest)
  {
    hide SkipDigits, AfterExponent, AfterFraction, DigitsValue, ParseNumber, IsExponent, AreDigits;
    var rest := AfterExponent(AfterFraction(after));
    assert AfterInteger(t, rest) == after;
    NumberParts(t.minus, t.digits, after, rest);
    SpelledNumeral(t, rest);
    assert (Spell(t, "") + rest)[..|Spell(t, "")|] == Spell(t, "");
    assert after == rest <==> t.fraction == None && t.exponent == None;
  }

  lemma FractionOf(after: string) returns (fraction: Option<string>)
    ensures fraction.Some? ==> AreDigits(fraction.value) && after == "." + (fraction.value + AfterFraction(after))
    ensures fraction == None ==> AfterFraction(after) == after
    ensures |AfterFraction(after)| <= |after|
  {
    hide SkipDigits;
    if after != "" && after[0] == '.' {
      var digits := DigitsBefore(after[1..]);
      fraction := Some(digits);
      assert after == "." + after[1..];
    } else {
      fraction := None;
    }
  }

  lemma ExponentOf(end: string) returns (exponent: Option<Exponent>)
    ensures exponent.Some? ==> IsExponent(exponent.value) && end == ExponentText(exponent.value, AfterExponent(end))
    ensures exponent == None ==> AfterExponent(end) == end
    ensures |AfterExponent(end)| <= |end|
  {
    hide SkipDigits;
    if end != "" && (end[0] == 'e' || end[0] == 'E') {
      var t := end[1..];
      var signed := t != "" && (t[0] == '+' || t[0] == '-');
      var sign := if signed then [t[0]] else "";
      var digits := DigitsBefore(if signed then t[1..] else t);
      exponent := Some(Exponent(end[0], sign, digits));
      hide AreDigits;
      assert t == sign + (if signed then t[1..] else t);
      assert end == [end[0]] + t;
    } else {
      exponent := None;
    }
  }

  lemma QuoteOf(s: string) returns (tokens: seq<Token>)
    requires ParseString(s).Ok?
    ensures AllTokens(tokens) && s == "\"" + From(tokens, ParseString(s).rest)
    ensures Meaning(tokens) == ParseString(s).value
  {
    hide ParseString, From, AllTokens, Meaning;
    var text, rest := ParseString(s).value, ParseString(s).rest;
    StringReadIff(s, text, rest);
    tokens :| AllTokens(tokens) && s == "\"" + From(tokens, rest) && text == Meaning(tokens);
  }

  /** A value that starts with neither a bracket nor a brace. */
  lemma ScalarOf(s: string, depth: nat) returns (t: Tree)
    requires s != "" && SkipWhitespace(s) == s && s[0] != '[' && s[0] != '{' && ParseValue(s, depth).Ok?
    ensures Grammatical(t) && Depth(t) == 0
    ensures s == Spell(t, ParseValue(s, depth).rest) && ValueOf(t) == ParseValue(s, depth).value
  {
    hide ParseString, ParseNumber, From, AllTokens, Meaning, SkipWhitespace, ParseArray, ParseObject;
    if s[0] == '"' {
      var tokens := QuoteOf(s);
      t := Quote(tokens);
    } else if s[0] == 't' || s[0] == 'f' || s[0] == 'n' {
      t := Word(ParseValue(s, depth).value);
      assert s[0] == 't' ==> s == "true" + s[|"true"|..];
      assert s[0] == 'f' ==> s == "false" + s[|"false"|..];
      assert s[0] == 'n' ==> s == "null" + s[|"null"|..];
    } else {
      t := NumeralOf(s);
    }
  }

  /** What is read as a value is white space and a spelling of that value. */
  lemma {:induction false} TreeOf(text: string, depth: nat) returns (g: string, t: Tree)
    requires ParseValue(text, depth).Ok? && depth <= 200
    ensures IsGap(g) && Grammatical(t) && depth + Depth(t) <= 200
    ensures text == g + Spell(t, ParseValue(text, depth).rest) && ValueOf(t) == ParseValue(text, depth).value
    decreases |text|, 2
  {
    hide ParseValue, SkipWhitespace, Spell, ParseArray, ParseObject, Grammatical, IsGap, Depth, ValueOf;
    g := GapBefore(text);
    var s := SkipWhitespace(text);
    JsonRoundTrip.SkipsOnce(text, depth);
    NonEmpty(text, depth);
    JsonRoundTrip.ValueIsContainer(s, depth);
    if s[0] == '[' {
      t := BracketsOf(s, depth);
    } else if s[0] == '{' {
      t := BracesOf(s, depth);
    } else {
      t := ScalarOf(s, depth);
    }
  }

  lemma NonEmpty(text: string, depth: nat)
    requires ParseValue(text, depth).Ok?
    ensures var s := SkipWhitespace(text); s != "" && SkipWhitespace(s) == s
  {
    hide ParseArray, ParseObject, ParseString, ParseNumber, ParseLiteral;
  }

  lemma {:induction false} BracketsOf(s: string, depth: nat) returns (t: Tree)
    requires s != "" && s[0] == '[' && ParseArray(s, depth).Ok?
    ensures Grammatical(t) && depth + Depth(t) <= 200
    ensures s == Spell(t, ParseArray(s, depth).rest) && ValueOf(t) == ParseArray(s, depth).value
    decreases |s|, 1
  {
    hide ParseItems, SkipWhitespace, IsGap, SpellItems, ValuesOf, DepthOfItems, Around;
    var inner := s[1..];
    var next := SkipWhitespace(inner);
    assert s == "[" + inner;
    if next != "" && next[0] == ']' {
      var inside := GapBefore(inner);
      t := Brackets(inside, []);
      assert next == "]" + next[1..];
      NoValues();
      assert DepthOfItems([]) == 0 by { NoItems(); }
    } else {
      JsonRoundTrip.ItemsSkip(inner, depth + 1);
      var items := ItemsOf(inner, depth + 1, []);
      t := Brackets("", items);
      NoGap();
      assert [] + ValuesOf(items) == ValuesOf(items);
    }
  }

  lemma NoGap()
    ensures IsGap("")
  {
  }

  lemma NoItems()
    ensures DepthOfItems([]) == 0 && DepthOfFields([]) == 0
  {
  }

  lemma {:induction false} ItemsOf(text: string, depth: nat, before: seq<Value>) returns (items: seq<Item>)
    requires ParseItems(text, depth, before).Ok? && depth <= 200
    ensures items != [] && forall i | 0 <= i < |items| :: Around(items[i]) && Grammatical(items[i].tree)
    ensures depth + DepthOfItems(items) <= 200
    ensures text == SpellItems(items, "]" + ParseItems(text, depth, before).rest)
    ensures ParseItems(text, depth, before).value == Array(before + ValuesOf(items))
    decreases |text|, 3
  {
    hide ParseValue, SkipWhitespace, IsGap, Spell, Grammatical, Depth, ValueOf, ValuesOf;
    var rest := ParseItems(text, depth, before).rest;
    var g, t := TreeOf(text, depth);
    var value, after := ParseValue(text, depth).value, ParseValue(text, depth).rest;
    var g2 := GapBefore(after);
    var next := SkipWhitespace(after);
    ItemTurn(text, depth, before, value, after);
    hide ParseItems;
    if next[0] == ',' {
      var more := ItemsOf(next[1..], depth, before + [value]);
      assert next == "," + next[1..];
      items := [Item(g, t, g2)] + more;
      assert items[1..] == more;
    } else {
      items := [Item(g, t, g2)];
      assert next == "]" + next[1..];
    }
    FirstValue(items, before);
  }

  lemma KeyOf(text: string) returns (g: string, key: seq<Token>, g2: string)
    requires ParseKey(text).Ok?
    ensures IsGap(g) && AllTokens(key) && IsGap(g2)
    ensures text == g + ("\"" + From(key, g2 + (":" + ParseKey(text).rest))) && Meaning(key) == ParseKey(text).value
  {
    hide ParseString, From, SkipWhitespace, IsGap, AllTokens, Meaning;
    g := GapBefore(text);
    var s := SkipWhitespace(text);
    key := QuoteOf(s);
    var afterKey := ParseString(s).rest;
    g2 := GapBefore(afterKey);
    assert SkipWhitespace(afterKey) == ":" + SkipWhitespace(afterKey)[1..];
  }

  lemma {:induction false} FieldsOf(text: string, depth: nat, before: seq<Member>) returns (fields: seq<Field>)
    requires ParseMembers(text, depth, before).Ok? && depth <= 200
    ensures fields != [] && forall i | 0 <= i < |fields| :: AroundField(fields[i]) && Grammatical(fields[i].tree)
    ensures depth + DepthOfFields(fields) <= 200
    ensures text == SpellFields(fields, "}" + ParseMembers(text, depth, before).rest)
    ensures ParseMembers(text, depth, before).value == Object(Gathered(fields, before))
    decreases |text|, 3
  {
    hide ParseValue, SkipWhitespace, IsGap, Spell, Grammatical, Depth, ValueOf, ParseKey, SetMember, AllTokens, Meaning,
         From;
    var rest := ParseMembers(text, depth, before).rest;
    var g, key, g2 := KeyOf(text);
    var afterColon := ParseKey(text).rest;
    var g3, t := TreeOf(afterColon, depth);
    var value, after := ParseValue(afterColon, depth).value, ParseValue(afterColon, depth).rest;
    var g4 := GapBefore(after);
    var next := SkipWhitespace(after);
    var members := SetMember(before, Meaning(key), value);
    FieldTurn(text, depth, before, Meaning(key), afterColon, value, after);
    hide ParseMembers;
    if next[0] == ',' {
      var more := FieldsOf(next[1..], depth, members);
      assert next == "," + next[1..];
      fields := [Field(g, key, g2, g3, t, g4)] + more;
      assert fields[1..] == more;
    } else {
      fields := [Field(g, key, g2, g3, t, g4)];
      assert next == "}" + next[1..];
    }
  }

  lemma {:induction false} BracesOf(s: string, depth: nat) returns (t: Tree)
    requires s != "" && s[0] == '{' && ParseObject(s, depth).Ok?
    ensures Grammatical(t) && depth + Depth(t) <= 200
    ensures s == Spell(t, ParseObject(s, depth).rest) && ValueOf(t) == ParseObject(s, depth).value
    decreases |s|, 1
  {
    hide ParseMembers, SkipWhitespace, IsGap, SpellFields, Gathered, DepthOfFields, AroundField;
    var inner := s[1..];
    var next := SkipWhitespace(inner);
    assert s == "{" + inner;
    if next != "" && next[0] == '}' {
      var inside := GapBefore(inner);
      t := Braces(inside, []);
      assert next == "}" + next[1..];
      NothingGathered();
      NoItems();
    } else {
      JsonRoundTrip.MembersSkip(inner, depth + 1);
      var fields := FieldsOf(inner, depth + 1, []);
      t := Braces("", fields);
      NoGap();
    }
  }

  // ---------------------------------------------------------------- documents

  /** A text is a document of a value exactly if it is a spelling of that value, with at most 200 brackets and braces
      open at once, and white space around it. */
  lemma ParsesExactly(text: string, v: Value)
    ensures ParseDocument(text) == Ok(v, "") <==>
            exists a, t, b ::
              IsGap(a) && IsGap(b) && Grammatical(t) && Depth(t) <= 200 && text == a + Spell(t, b) && ValueOf(t) == v
  {
    hide ParseValue, SkipWhitespace, Spell, Grammatical, IsGap, Depth, ValueOf;
    JsonRoundTrip.SkipsOnce(text, 0);
    if ParseDocument(text) == Ok(v, "") {
      var a, t := TreeOf(text, 0);
      var b := GapBefore(ParseValue(text, 0).rest);
      assert b + "" == b;
    }
    if a, t, b :|
      IsGap(a) && IsGap(b) && Grammatical(t) && Depth(t) <= 200 && text == a + Spell(t, b) && ValueOf(t) == v
    {
      DocumentReads(a, t, b, "");
      assert b + "" == b;
    }
  }

  /** A spelling with white space around it, and then the end or something else. */
  lemma DocumentReads(a: string, t: Tree, b: string, more: string)
    requires IsGap(a) && IsGap(b) && Grammatical(t) && Depth(t) <= 200
    requires more != "" ==> more[0] != ' ' && more[0] != '\t' && more[0] != '\n' && more[0] != '\r'
    requires b == "" ==> CanFollow(t, more)
    ensures ParseDocument(a + Spell(t, b + more)) ==
            if more == "" then Ok(ValueOf(t), "") else Fail(TrailingData, |more|)
  {
    hide ParseValue, SkipWhitespace, Spell, Grammatical, Depth, ValueOf;
    var rest := b + more;
    assert rest == "" || rest[0] == if b == "" then more[0] else b[0];
    JsonRoundTrip.SkipsOnce(a + Spell(t, rest), 0);
    SpacedReads(a, t, rest, 0);
    TreeReads(t, rest, 0);
    SkipsTo(b, more);
  }

  // ---------------------------------------------------------------- too deep

  predicate TooDeepAt(r: Parsed<Value>) { r.Fail? && r.error == TooDeep }

  lemma ItemFails(text: string, depth: nat, before: seq<Value>)
    requires TooDeepAt(ParseValue(text, depth))
    ensures TooDeepAt(ParseItems(text, depth, before))
  {
    hide ParseValue;
  }

  lemma {:induction false} ItemsTooDeep(items: seq<Item>, rest: string, depth: nat, before: seq<Value>)
    requires items != [] && forall i | 0 <= i < |items| :: Around(items[i]) && Grammatical(items[i].tree)
    requires depth <= 200 < depth + DepthOfItems(items)
    ensures TooDeepAt(ParseItems(SpellItems(items, "]" + rest), depth, before))
    decreases items, 0
  {
    hide Spell, ParseValue, ParseItems, Grammatical, IsGap, SkipWhitespace, CanFollow, Depth, ValueOf, TooDeepAt;
    var text, after := SpellItems(items, "]" + rest), AfterItem(items, "]" + rest);
    var t := items[0].tree;
    assert Around(items[0]) && Grammatical(items[0].tree);
    SpacedReads(items[0].before, t, after, depth);
    if depth + Depth(t) > 200 {
      TreeTooDeep(t, after, depth);
      ItemFails(text, depth, before);
    } else {
      assert |items| > 1;
      var end := "," + SpellItems(items[1..], "]" + rest);
      AfterClosing(items[0].after, t, end);
      TreeReads(t, after, depth);
      ItemTurn(text, depth, before, ValueOf(t), after);
      assert end[1..] == SpellItems(items[1..], "]" + rest);
      ItemsTooDeep(items[1..], rest, depth, before + [ValueOf(t)]);
    }
  }

  lemma FieldFails(text: string, depth: nat, before: seq<Member>)
    requires ParseKey(text).Ok? && TooDeepAt(ParseValue(ParseKey(text).rest, depth))
    ensures TooDeepAt(ParseMembers(text, depth, before))
  {
    hide ParseKey, ParseValue;
  }

  lemma {:induction false} FieldsTooDeep(fields: seq<Field>, rest: string, depth: nat, before: seq<Member>)
    requires fields != [] && forall i | 0 <= i < |fields| :: AroundField(fields[i]) && Grammatical(fields[i].tree)
    requires depth <= 200 < depth + DepthOfFields(fields)
    ensures TooDeepAt(ParseMembers(SpellFields(fields, "}" + rest), depth, before))
    decreases fields, 0
  {
    hide Spell, ParseValue, ParseMembers, Grammatical, IsGap, SkipWhitespace, CanFollow, Depth, ValueOf, From, ParseKey,
         SetMember, AllTokens, Meaning, TooDeepAt;
    var text, after := SpellFields(fields, "}" + rest), AfterField(fields, "}" + rest);
    var f := fields[0];
    assert AroundField(f) && Grammatical(f.tree);
    KeyTurn(f.before, f.key, f.beforeColon, f.afterColon + Spell(f.tree, after));
    SpacedReads(f.afterColon, f.tree, after, depth);
    if depth + Depth(f.tree) > 200 {
      TreeTooDeep(f.tree, after, depth);
      FieldFails(text, depth, before);
    } else {
      assert |fields| > 1;
      var end := "," + SpellFields(fields[1..], "}" + rest);
      AfterClosing(f.after, f.tree, end);
      TreeReads(f.tree, after, depth);
      FieldTurn(text, depth, before, Meaning(f.key), f.afterColon + Spell(f.tree, after), ValueOf(f.tree), after);
      assert end[1..] == SpellFields(fields[1..], "}" + rest);
      FieldsTooDeep(fields[1..], rest, depth, SetMember(before, Meaning(f.key), ValueOf(f.tree)));
    }
  }

  lemma {:induction false} TreeTooDeep(t: Tree, rest: string, depth: nat)
    requires Grammatical(t) && depth <= 200 < depth + Depth(t)
    ensures TooDeepAt(ParseValue(Spell(t, rest), depth))
    decreases t, 1
  {
    hide ParseValue, ParseItems, ParseMembers, SpellItems, SpellFields, IsGap, DepthOfItems, DepthOfFields;
    var text := Spell(t, rest);
    JsonRoundTrip.ValueIsContainer(text, depth);
    if depth < 200 {
      NoItems();
      match t {
        case Brackets(inside, items) =>
          assert text[1..] == SpellItems(items, "]" + rest);
          ItemsTooDeep(items, rest, depth + 1, []);
          ItemsStart(items, "]" + rest);
          JsonRoundTrip.ItemsSkip(text[1..], depth + 1);
        case Braces(inside, fields) =>
          assert text[1..] == SpellFields(fields, "}" + rest);
          FieldsTooDeep(fields, rest, depth + 1, []);
          FieldsStart(fields, "}" + rest);
          JsonRoundTrip.MembersSkip(text[1..], depth + 1);
      }
    }
  }

  /** More than 200 are refused, and for that reason. */
  lemma DocumentTooDeep(a: string, t: Tree, rest: string)
    requires IsGap(a) && Grammatical(t) && Depth(t) > 200
    ensures TooDeepAt(ParseDocument(a + Spell(t, rest)))
  {
    hide ParseValue, SkipWhitespace, Spell, Grammatical, Depth;
    JsonRoundTrip.SkipsOnce(a + Spell(t, rest), 0);
    SpacedReads(a, t, rest, 0);
    TreeTooDeep(t, rest, 0);
  }
}
