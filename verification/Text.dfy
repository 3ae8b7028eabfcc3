/** Searching in strings. */
module Text {

  /** The pattern stands at a position of the text. */
  predicate At(text: string, p: nat, pattern: string) {
    p + |pattern| <= |text| && text[p..p + |pattern|] == pattern
  }

  /** The first position from `from` on at which the pattern stands, or -1. */
  function Find(text: string, pattern: string, from: nat): (p: int)
    requires from <= |text|
    ensures p == -1 || (from <= p <= |text| && At(text, p, pattern))
    ensures forall q | from <= q <= |text| && (p < 0 || q < p) :: !At(text, q, pattern)
    decreases |text| - from
  {
    if At(text, from, pattern) then from
    else if from == |text| then -1
    else Find(text, pattern, from + 1)
  }

  predicate Contains(text: string, pattern: string) {
    Find(text, pattern, 0) >= 0
  }

  /** A pattern stands in a suffix where it stands in the whole. */
  lemma AtShift(text: string, p: nat, q: nat, pattern: string)
    requires p <= |text|
    ensures At(text[p..], q, pattern) <==> At(text, p + q, pattern)
  {
    if p + q + |pattern| <= |text| {
      assert text[p..][q..q + |pattern|] == text[p + q..p + q + |pattern|];
    }
  }

  lemma FindIs(text: string, pattern: string, from: nat, p: nat)
    requires from <= p <= |text| && At(text, p, pattern)
    requires forall q | from <= q < p :: !At(text, q, pattern)
    ensures Find(text, pattern, from) == p
  {
  }

  /** What stands before, between and after the separators. */
  function Segments(text: string, separator: char): (parts: seq<string>)
    ensures parts != []
  {
    if text == "" then [""]
    else
      var rest := Segments(text[1..], separator);
      if text[0] == separator then [""] + rest else [[text[0]] + rest[0]] + rest[1..]
  }

  /** The segments and the separators between them make up the text, and no segment holds a separator. */
  lemma {:induction false} SegmentsJoin(text: string, separator: char)
    ensures Join(Segments(text, separator), separator) == text
    ensures forall i | 0 <= i < |Segments(text, separator)| :: separator !in Segments(text, separator)[i]
  {
    if text != "" {
      SegmentsJoin(text[1..], separator);
      var rest := Segments(text[1..], separator);
      var parts := Segments(text, separator);
      if text[0] == separator { assert parts[1..] == rest; } else { assert parts[1..] == rest[1..]; }
    }
  }

  function Join(parts: seq<string>, separator: char): string
    requires parts != []
  {
    if |parts| == 1 then parts[0] else parts[0] + ([separator] + Join(parts[1..], separator))
  }

  /** One more character at the front. */
  lemma SegmentsFront(text: string, separator: char, c: char)
    ensures var rest := Segments(text, separator);
            Segments([c] + text, separator) ==
            if c == separator then [""] + rest else [[c] + rest[0]] + rest[1..]
  {
    assert ([c] + text)[1..] == text;
  }

  /** One more character at the end. */
  function Grown(parts: seq<string>, separator: char, c: char): seq<string>
    requires parts != []
  {
    var n := |parts| - 1;
    if c == separator then parts + [""] else parts[..n] + [parts[n] + [c]]
  }

  lemma GrownLonger(first: string, parts: seq<string>, separator: char, c: char)
    requires parts != []
    ensures Grown([first] + parts, separator, c) == [first] + Grown(parts, separator, c)
  {
    var n := |parts| - 1;
    assert ([first] + parts)[..n + 1] == [first] + parts[..n];
    assert [first] + (parts + [""]) == ([first] + parts) + [""];
  }

  lemma {:induction false} SegmentsGrow(text: string, separator: char, c: char)
    ensures Segments(text + [c], separator) == Grown(Segments(text, separator), separator, c)
  {
    hide Segments;
    if text == "" {
      OneSegment(separator, c);
    } else {
      var d, rest := text[0], text[1..];
      var parts := Segments(rest, separator);
      SegmentsGrow(rest, separator, c);
      SegmentsFront(rest, separator, d);
      SegmentsFront(rest + [c], separator, d);
      assert text == [d] + rest && text + [c] == [d] + (rest + [c]);
      if d == separator {
        GrownLonger("", parts, separator, c);
      } else if |parts| == 1 {
        assert c == separator ==> Grown(parts, separator, c) == [parts[0], ""];
        assert c != separator ==> Grown(parts, separator, c) == [parts[0] + [c]];
        assert [d] + (parts[0] + [c]) == ([d] + parts[0]) + [c];
      } else {
        GrownLonger([d] + parts[0], parts[1..], separator, c);
        GrownLonger(parts[0], parts[1..], separator, c);
        assert parts == [parts[0]] + parts[1..];
      }
    }
  }

  lemma OneSegment(separator: char, c: char)
    ensures "" + [c] == [c]
    ensures Segments([c], separator) == Grown(Segments("", separator), separator, c)
  {
    assert [c][1..] == "" && Segments("", separator) == [""];
    assert [c] + "" == [c] == "" + [c];
    assert [""] + [""] == ["", ""];
  }
}
