/** Text in vCard and iCalendar files: escaping a value, and folding a content line. */
module IcsFold {
  import opened Utf8
  import opened Wrappers

  // ---------------------------------------------------------------- escaping

  function EscapeChar(c: char): string {
    if c == '\\' then "\\\\"
    else if c == ',' then "\\,"
    else if c == ';' then "\\;"
    else if c == '\n' then "\\n"
    else if c == '\r' then ""
    else [c]
  }

  function Escape(value: string): string {
    if value == "" then "" else EscapeChar(value[0]) + Escape(value[1..])
  }

  lemma EscapeStep(value: string, i: nat, out: string)
    requires i < |value|
    ensures out + Escape(value[i..]) == (out + EscapeChar(value[i])) + Escape(value[i + 1..])
  {
    assert value[i..][1..] == value[i + 1..];
  }

  method VcardEscape(value: string) returns (out: string)
    ensures out == Escape(value)
  {
    hide Escape;
    out := "";
    Nothing(value);
    for i := 0 to |value|
      invariant out + Escape(value[i..]) == Escape(value)
    {
      var c := value[i];
      EscapeStep(value, i, out);
      if c == '\\' { out := out + "\\\\"; }
      else if c == ',' { out := out + "\\,"; }
      else if c == ';' { out := out + "\\;"; }
      else if c == '\n' { out := out + "\\n"; }
      else if c != '\r' { out := out + [c]; }
    }
  }

  lemma Nothing(value: string)
    ensures "" + Escape(value[0..]) == Escape(value) && Escape(value[|value|..]) == ""
    ensures forall out: string :: out + "" == out
  {
    assert value[0..] == value;
  }

  /** One pass over an escaped value (RFC 5545 section 3.3.11): a backslash takes the next character with it,
      and `n` or `N` after it stands for a line feed. */
  function Unescape(text: string): string
    decreases |text|
  {
    if text == "" then ""
    else if text[0] != '\\' || |text| == 1 then [text[0]] + Unescape(text[1..])
    else [if text[1] == 'n' || text[1] == 'N' then '\n' else text[1]] + Unescape(text[2..])
  }

  function WithoutReturns(value: string): string {
    if value == "" then ""
    else (if value[0] == '\r' then "" else [value[0]]) + WithoutReturns(value[1..])
  }

  /** Unescaping recovers the value, its carriage returns aside. */
  lemma {:induction false} UnescapeUndoesEscape(value: string)
    ensures Unescape(Escape(value)) == WithoutReturns(value)
  {
    if value != "" {
      UnescapeUndoesEscape(value[1..]);
      var rest := Escape(value[1..]);
      var c := value[0];
      if c == '\\' || c == ',' || c == ';' || c == '\n' {
        var e := EscapeChar(c);
        assert |e| == 2 && e[0] == '\\';
        assert Escape(value) == e + rest && (e + rest)[2..] == rest && (e + rest)[1] == e[1];
      } else if c != '\r' {
        assert Escape(value) == [c] + rest && ([c] + rest)[1..] == rest;
      } else {
        assert Escape(value) == rest;
      }
    }
  }

  /** What is left of an escaped text without its pairs of a backslash and the character after it. */
  function Bare(text: string): string
    decreases |text|
  {
    if text == "" then ""
    else if text[0] == '\\' && |text| > 1 then Bare(text[2..])
    else [text[0]] + Bare(text[1..])
  }

  /** The characters that mean nothing to the format. */
  function Ordinary(value: string): string {
    if value == "" then ""
    else
      var c := value[0];
      (if c == '\\' || c == ',' || c == ';' || c == '\n' || c == '\r' then "" else [c]) + Ordinary(value[1..])
  }

  lemma BarePair(c: char, rest: string)
    ensures Bare(['\\', c] + rest) == Bare(rest)
  {
    assert (['\\', c] + rest)[2..] == rest;
  }

  lemma BareOne(c: char, rest: string)
    requires c != '\\'
    ensures Bare([c] + rest) == [c] + Bare(rest)
  {
    assert ([c] + rest)[1..] == rest;
  }

  lemma EscapeIs(value: string)
    ensures Escape("") == Ordinary("") == Bare("") == ""
    ensures value != "" ==> Escape(value) == EscapeChar(value[0]) + Escape(value[1..])
  {
  }

  /** Just these stand by themselves in escaped text: no comma, semicolon, backslash or line end does. */
  lemma {:induction false} EscapesTheRest(value: string)
    ensures Bare(Escape(value)) == Ordinary(value)
  {
    hide Bare, Escape;
    EscapeIs(value);
    if value != "" {
      var c, rest := value[0], Escape(value[1..]);
      EscapesTheRest(value[1..]);
      if c == '\\' || c == ',' || c == ';' {
        assert EscapeChar(c) == ['\\', c];
        BarePair(c, rest);
      } else if c == '\n' {
        BarePair('n', rest);
      } else if c == '\r' {
        assert EscapeChar(c) + rest == rest;
      } else {
        BareOne(c, rest);
      }
    }
  }

  /** Escaped text holds no line ends. */
  lemma {:induction false} EscapedIsOneLine(value: string)
    ensures '\r' !in Escape(value) && '\n' !in Escape(value)
  {
    if value != "" { EscapedIsOneLine(value[1..]); }
  }

  /** Escaping keeps text well formed. */
  lemma {:induction false} EscapeWellFormed(state: State, value: string)
    requires Run(state, value) == Start
    ensures Run(state, Escape(value)) == Start
    decreases |value|
  {
    if value != "" {
      var c := value[0];
      EscapeWellFormed(Step(state, c), value[1..]);
      RunConcat(state, EscapeChar(c), Escape(value[1..]));
      if c as int <= 0x7F {
        AsciiOnlyAtStart(state, value);
        AsciiIsWellFormed(EscapeChar(c));
        assert Step(Start, c) == Start;
      } else {
        Run1(state, c);
      }
    }
  }

  // ---------------------------------------------------------------- folding

  predicate Continuation(c: char) {
    0x80 <= c as int <= 0xBF
  }

  /** Where a line is cut: at the limit, or before the sequence the limit falls into. */
  function Cut(line: string, start: nat, limit: nat): (cut: nat)
    requires start + limit < |line|
    ensures start <= cut <= start + limit
    ensures cut == start || !Continuation(line[cut])
    ensures forall i | cut < i <= start + limit :: Continuation(line[i])
    decreases limit
  {
    if limit == 0 || !Continuation(line[start + limit]) then start + limit else Cut(line, start, limit - 1)
  }

  datatype Folded = Done(parts: seq<string>) | Forever

  /** The pieces of a line from a position on. A cut that gets nowhere is repeated for ever. */
  function Parts(line: string, start: nat, limit: nat): Folded
    requires start <= |line|
    decreases |line| - start
  {
    if |line| - start <= limit then Done([line[start..]])
    else
      var cut := Cut(line, start, limit);
      if cut == start then Forever
      else
        match Parts(line, cut, 74)
        case Forever => Forever
        case Done(parts) => Done([line[start..cut]] + parts)
  }

  const BREAK := "\r\n "

  function Joined(parts: seq<string>): string
    requires parts != []
  {
    if |parts| == 1 then parts[0] + "\r\n" else parts[0] + (BREAK + Joined(parts[1..]))
  }

  /** So many bytes of a line, all of them continuation bytes. */
  predicate LongRun(line: string, from: nat, length: nat) {
    from + length <= |line| && forall i | from <= i < from + length :: 0x80 <= line[i] as int <= 0xBF
  }

  /** A piece that starts at s cannot be cut: the first piece would have 75 octets, any other 74. */
  predicate StuckAt(line: string, s: nat) {
    LongRun(line, s + 1, if s == 0 then 75 else 74)
  }

  /** Folding gets stuck on 75 continuation bytes right after the first byte, or 74 after a later one. */
  predicate Stuck(line: string) {
    exists s: nat :: s < |line| && StuckAt(line, s)
  }

  function Broken(parts: seq<string>): string {
    if parts == [] then "" else Broken(parts[..|parts| - 1]) + (parts[|parts| - 1] + BREAK)
  }

  lemma {:induction false} JoinedIs(parts: seq<string>, last: string)
    ensures Joined(parts + [last]) == Broken(parts) + (last + "\r\n")
  {
    hide Broken;
    if parts == [] {
      assert parts + [last] == [last];
      NothingBroken();
      assert "" + (last + "\r\n") == last + "\r\n";
    } else {
      BrokenFront(parts);
      JoinedIs(parts[1..], last);
      assert (parts + [last])[1..] == parts[1..] + [last];
      Regrouped(parts[0], Broken(parts[1..]), last + "\r\n");
    }
  }

  lemma Regrouped(part: string, broken: string, last: string)
    ensures part + (BREAK + (broken + last)) == (part + (BREAK + broken)) + last
  {
  }

  lemma {:induction false} BrokenFront(parts: seq<string>)
    requires parts != []
    ensures Broken(parts) == parts[0] + (BREAK + Broken(parts[1..]))
  {
    hide Broken;
    var n := |parts| - 1;
    BrokenLast(parts);
    if n == 0 {
      assert parts[..0] == [] && parts[1..] == [];
      NothingBroken();
      assert "" + (parts[0] + BREAK) == parts[0] + (BREAK + "");
    } else {
      BrokenFront(parts[..n]);
      BrokenLast(parts[1..]);
      assert parts[..n][1..] == parts[1..][..n - 1] && parts[1..][n - 1] == parts[n];
      Regrouped(parts[0], Broken(parts[..n][1..]), parts[n] + BREAK);
    }
  }

  lemma BrokenLast(parts: seq<string>)
    requires parts != []
    ensures var n := |parts| - 1; Broken(parts) == Broken(parts[..n]) + (parts[n] + BREAK)
  {
  }

  lemma BrokenNext(parts: seq<string>, part: string)
    ensures Broken(parts + [part]) == Broken(parts) + (part + BREAK)
  {
    assert (parts + [part])[..|parts|] == parts;
  }

  /** The folded line, or nothing where the program's loop never gets past a cut: the model's stops there. */
  method FoldIcsLine(line: string) returns (folded: Option<string>)
    ensures folded.None? <==> Stuck(line)
    ensures folded.Some? ==> Parts(line, 0, 75).Done? && folded.value == Joined(Parts(line, 0, 75).parts)
  {
    hide Stuck, Broken, Joined, Cut;
    StuckIff(line);
    var out := "";
    var start: nat := 0;
    var limit: nat := 75;
    ghost var all := Parts(line, 0, 75);
    ghost var done: seq<string> := [];
    NothingBroken();
    while |line| - start > limit
      invariant start <= |line| && (Parts(line, start, limit).Done? <==> all.Done?)
      invariant all.Done? ==> done + Parts(line, start, limit).parts == all.parts
      invariant out == Broken(done)
      decreases |line| - start
    {
      var cut := FindCut(line, start, limit);
      if cut == start { return None; }
      ghost var part := line[start..cut];
      BrokenNext(done, part);
      if all.Done? { MovesOver(done, part, Parts(line, cut, 74).parts); }
      done := done + [part];
      out := out + (line[start..cut] + BREAK);
      start := cut;
      limit := 74;
    }
    JoinedIs(done, line[start..]);
    return Some(out + (line[start..] + "\r\n"));
  }

  method FindCut(line: string, start: nat, limit: nat) returns (cut: nat)
    requires start + limit < |line|
    ensures cut == Cut(line, start, limit)
  {
    cut := start + limit;
    while cut > start && Continuation(line[cut])
      invariant start <= cut <= start + limit
      invariant Cut(line, start, limit) == Cut(line, start, cut - start)
    {
      cut := cut - 1;
    }
  }

  lemma NothingBroken()
    ensures Broken([]) == "" && forall parts: seq<string> :: [] + parts == parts
  {
  }

  lemma MovesOver(done: seq<string>, part: string, rest: seq<string>)
    ensures done + ([part] + rest) == (done + [part]) + rest
  {
  }

  // ---------------------------------------------------------------- when folding ends

  /** A byte that is no continuation byte, with a long run after it, is where some piece starts: cutting
      from before it never gets past it. */
  lemma {:induction false} RunStops(line: string, start: nat, limit: nat, s: nat)
    requires start <= s < |line| && (if start == 0 then limit == 75 else limit == 74)
    requires StuckAt(line, s) && (start < s ==> !Continuation(line[s]))
    ensures Parts(line, start, limit).Forever?
    decreases |line| - start
  {
    var cut := Cut(line, start, limit);
    if start < s {
      if cut != start { RunStops(line, cut, 74, s); }
    }
  }

  lemma {:induction false} EndsWithoutRun(line: string, start: nat, limit: nat)
    requires start <= |line| && (if start == 0 then limit == 75 else limit == 74)
    requires Parts(line, start, limit).Forever?
    ensures exists s: nat :: start <= s < |line| && StuckAt(line, s)
    decreases |line| - start
  {
    var cut := Cut(line, start, limit);
    if cut == start {
      assert forall i | start < i <= start + limit :: Continuation(line[i]);
      assert StuckAt(line, start);
    }
    else { EndsWithoutRun(line, cut, 74); }
  }

  /** The first byte of a run of continuation bytes, or the start of the line. */
  function RunHead(line: string, s: nat): (h: nat)
    requires s < |line|
    ensures h <= s && (h == 0 || !Continuation(line[h]))
    ensures forall i | h < i <= s :: Continuation(line[i])
  {
    if s == 0 || !Continuation(line[s]) then s else RunHead(line, s - 1)
  }

  /** Folding a line runs for ever exactly if it holds a run of continuation bytes as long as a whole piece. */
  lemma StuckIff(line: string)
    ensures Parts(line, 0, 75).Forever? <==> Stuck(line)
  {
    if Parts(line, 0, 75).Forever? { EndsWithoutRun(line, 0, 75); }
    if Stuck(line) {
      var s: nat :| s < |line| && StuckAt(line, s);
      var h := RunHead(line, s);
      assert StuckAt(line, h);
      RunStops(line, 0, 75, h);
    }
  }

  /** ... and there are such lines: a letter and 75 continuation bytes. */
  lemma StuckLine()
    ensures Stuck("a" + seq(75, _ => 0x80 as char))
    ensures Parts("a" + seq(75, _ => 0x80 as char), 0, 75).Forever?
  {
    hide Parts;
    var line := "a" + seq(75, _ => 0x80 as char);
    assert StuckAt(line, 0);
    StuckIff(line);
  }

  lemma FourContinuations(state: State, s: string)
    requires |s| >= 4 && forall i | 0 <= i < 4 :: Continuation(s[i])
    ensures Run(state, s) == Bad
  {
    var four := [s[0], s[1], s[2], s[3]];
    assert s == four + s[4..];
    RunConcat(state, four, s[4..]);
    Run4(state, s[0], s[1], s[2], s[3]);
    BadStaysBad(s[4..]);
  }

  /** Folding a well-formed line comes to an end. */
  lemma WellFormedEnds(line: string)
    requires WellFormed(line)
    ensures !Stuck(line)
  {
    if s: nat :| s < |line| && StuckAt(line, s) {
      var rest := line[s + 1..];
      assert forall i | 0 <= i < 4 :: Continuation(rest[i]);
      assert line == line[..s + 1] + rest;
      RunConcat(Start, line[..s + 1], rest);
      FourContinuations(Run(Start, line[..s + 1]), rest);
    }
  }

  /** Between two characters of well-formed text nothing is due. */
  lemma Boundary(line: string, p: nat)
    requires WellFormed(line) && p <= |line| && (p == 0 || p == |line| || !Continuation(line[p]))
    ensures WellFormed(line[..p]) && WellFormed(line[p..])
  {
    assert line == line[..p] + line[p..];
    RunConcat(Start, line[..p], line[p..]);
    var state := Run(Start, line[..p]);
    if p == 0 || p == |line| {
      assert line[..0] == "" && line[|line|..] == "" && line[..|line|] == line && line[0..] == line;
    } else if state != Start {
      NextDue(state, line[p..]);
    }
  }

  function Concat(parts: seq<string>): string {
    if parts == [] then "" else parts[0] + Concat(parts[1..])
  }

  /** No more than three bytes short of the limit: a character has at most four. */
  lemma CutIsLate(line: string, start: nat, limit: nat)
    requires WellFormed(line) && start + limit < |line| && limit >= 4 && Cut(line, start, limit) != start
    ensures Cut(line, start, limit) >= start + limit - 3
  {
    hide Continuation, WellFormed;
    var cut := Cut(line, start, limit);
    if cut + 4 <= start + limit {
      var rest := line[cut + 1..];
      assert forall i | 0 <= i < 4 :: rest[i] == line[cut + 1 + i];
      InTheMiddle(line, cut + 1, rest);
    }
  }

  lemma InTheMiddle(line: string, at: nat, rest: string)
    requires at <= |line| && rest == line[at..] && |rest| >= 4 && forall i | 0 <= i < 4 :: Continuation(rest[i])
    ensures !WellFormed(line)
  {
    hide Continuation;
    assert line == line[..at] + rest;
    RunConcat(Start, line[..at], rest);
    FourContinuations(Run(Start, line[..at]), rest);
  }

  /** The pieces make up the rest of the line; each is well-formed text that fits on its line, after the
      space that a continuation line starts with. */
  lemma {:induction false} PartsFit(line: string, start: nat, limit: nat)
    requires WellFormed(line) && start <= |line| && (start == 0 || start == |line| || !Continuation(line[start]))
    requires (if start == 0 then limit == 75 else limit == 74) && Parts(line, start, limit).Done?
    ensures PiecesFit(Parts(line, start, limit).parts, line[start..], limit)
    decreases |line| - start
  {
    hide WellFormed, PiecesFit;
    Boundary(line, start);
    var parts := Parts(line, start, limit).parts;
    if |line| - start <= limit {
      OnlyPiece(line[start..], limit);
    } else {
      var cut := Cut(line, start, limit);
      PartsFit(line, cut, 74);
      Boundary(line, cut);
      CutIsLate(line, start, limit);
      BoundaryWithin(line, start, cut);
      assert line[start..cut] + line[cut..] == line[start..];
      OneMorePiece(line[start..cut], Parts(line, cut, 74).parts, line[cut..], limit);
    }
  }

  /** The pieces make up a text; each is well-formed, none is too long, and none but the last too short. */
  predicate PiecesFit(parts: seq<string>, text: string, limit: nat) {
    && parts != [] && Concat(parts) == text
    && |parts[0]| <= limit && (forall i | 1 <= i < |parts| :: |parts[i]| <= 74)
    && (forall i | 0 <= i < |parts| :: WellFormed(parts[i]))
    && (|parts| > 1 ==> |parts[0]| >= limit - 3) && (forall i | 1 <= i < |parts| - 1 :: |parts[i]| >= 71)
  }

  lemma OnlyPiece(text: string, limit: nat)
    requires WellFormed(text) && |text| <= limit
    ensures PiecesFit([text], text, limit)
  {
    hide WellFormed;
    FirstOf(text, []);
    assert [text] + [] == [text] && text + "" == text;
  }

  lemma OneMorePiece(part: string, rest: seq<string>, text: string, limit: nat)
    requires PiecesFit(rest, text, 74) && WellFormed(part) && limit - 3 <= |part| <= limit
    ensures PiecesFit([part] + rest, part + text, limit)
  {
    hide WellFormed, Concat;
    var parts := [part] + rest;
    assert parts[1..] == rest && Concat(parts) == part + Concat(rest) by { FirstOf(part, rest); }
    assert forall i | 1 <= i < |parts| :: parts[i] == rest[i - 1];
  }

  lemma FirstOf(part: string, rest: seq<string>)
    ensures Concat([part] + rest) == part + Concat(rest)
  {
    assert ([part] + rest)[1..] == rest;
  }

  lemma BoundaryWithin(line: string, start: nat, cut: nat)
    requires start <= cut <= |line| && WellFormed(line[..start]) && WellFormed(line[..cut])
    ensures WellFormed(line[start..cut])
  {
    assert line[..cut] == line[..start] + line[start..cut];
    RunConcat(Start, line[..start], line[start..cut]);
  }

  // ---------------------------------------------------------------- unfolding

  /** Taking out every line end that is followed by white space (RFC 5545 section 3.1). */
  function Unfold(text: string): string
    decreases |text|
  {
    if text == "" then ""
    else if |text| >= 3 && text[0] == '\r' && text[1] == '\n' && (text[2] == ' ' || text[2] == '\t')
    then Unfold(text[3..])
    else [text[0]] + Unfold(text[1..])
  }

  predicate NoLineEnd(s: string) {
    forall i | 0 <= i < |s| - 1 :: !(s[i] == '\r' && s[i + 1] == '\n')
  }

  /** Text without line ends, followed by one, stays until the line end. */
  lemma {:induction false} UnfoldKeeps(part: string, tail: string)
    requires NoLineEnd(part) && tail != "" && tail[0] == '\r'
    ensures Unfold(part + tail) == part + Unfold(tail)
    decreases |part|
  {
    if part == "" {
      assert part + tail == tail;
    } else {
      var text := part + tail;
      assert text[1..] == part[1..] + tail && text[0] == part[0];
      assert part[0] == '\r' ==> text[1] != '\n' by { if |part| > 1 { assert part[1] == text[1]; } }
      assert NoLineEnd(part[1..]) by {
        forall i | 0 <= i < |part[1..]| - 1 ensures !(part[1..][i] == '\r' && part[1..][i + 1] == '\n') {
          assert part[1..][i] == part[i + 1] && part[1..][i + 1] == part[i + 2];
        }
      }
      UnfoldKeeps(part[1..], tail);
    }
  }

  lemma {:induction false} UnfoldJoined(parts: seq<string>)
    requires parts != [] && forall i | 0 <= i < |parts| :: NoLineEnd(parts[i])
    ensures Unfold(Joined(parts)) == Concat(parts) + "\r\n"
  {
    hide NoLineEnd;
    if |parts| == 1 {
      UnfoldKeeps(parts[0], "\r\n");
      UnfoldEnd();
      assert Concat(parts) == parts[0] + "" == parts[0];
    } else {
      var tail := BREAK + Joined(parts[1..]);
      UnfoldKeeps(parts[0], tail);
      UnfoldBreak(Joined(parts[1..]));
      UnfoldJoined(parts[1..]);
      assert parts[0] + (Concat(parts[1..]) + "\r\n") == Concat(parts) + "\r\n";
    }
  }

  lemma UnfoldEnd()
    ensures Unfold("\r\n") == "\r\n"
  {
    assert "\r\n"[1..] == "\n" && "\n"[1..] == "";
  }

  lemma UnfoldBreak(rest: string)
    ensures Unfold(BREAK + rest) == Unfold(rest)
  {
    assert (BREAK + rest)[3..] == rest;
  }

  /** A piece of a line without line ends has none. */
  lemma {:induction false} PiecesOf(line: string, parts: seq<string>)
    requires NoLineEnd(line) && Concat(parts) == line
    ensures forall i | 0 <= i < |parts| :: NoLineEnd(parts[i])
    decreases |parts|
  {
    if parts != [] {
      var rest := Concat(parts[1..]);
      assert line == parts[0] + rest;
      forall i | 0 <= i < |parts[0]| - 1 ensures !(parts[0][i] == '\r' && parts[0][i + 1] == '\n') {
        assert line[i] == parts[0][i] && line[i + 1] == parts[0][i + 1];
      }
      forall i | 0 <= i < |rest| - 1 ensures !(rest[i] == '\r' && rest[i + 1] == '\n') {
        assert line[|parts[0]| + i] == rest[i] && line[|parts[0]| + i + 1] == rest[i + 1];
      }
      PiecesOf(rest, parts[1..]);
    }
  }

  /** Every well-formed line without a line end of its own: folding it ends, gives lines of at most 75 octets
      (and all but the last of at least 72) that split no character, and unfolding gives the line back. */
  lemma FoldsFaithfully(line: string)
    requires WellFormed(line) && NoLineEnd(line)
    ensures Parts(line, 0, 75).Done?
    ensures var parts := Parts(line, 0, 75).parts;
            && parts != [] && |parts[0]| <= 75 && (forall i | 1 <= i < |parts| :: 1 + |parts[i]| <= 75)
            && (|parts| > 1 ==> |parts[0]| >= 72) && (forall i | 1 <= i < |parts| - 1 :: |parts[i]| >= 71)
            && (forall i | 0 <= i < |parts| :: WellFormed(parts[i]))
            && Unfold(Joined(parts)) == line + "\r\n"
  {
    hide WellFormed, NoLineEnd, Joined, Concat, Stuck, Unfold;
    WellFormedEnds(line);
    StuckIff(line);
    PartsFit(line, 0, 75);
    assert line[0..] == line;
    var parts := Parts(line, 0, 75).parts;
    PiecesOf(line, parts);
    UnfoldJoined(parts);
  }

  /** A property's value, escaped and folded, comes back by unfolding and unescaping, its carriage returns
      aside. */
  lemma PropertyComesBack(name: string, value: string)
    requires WellFormed(value) && WellFormed(name) && '\r' !in name
    ensures var line := name + Escape(value);
            && Parts(line, 0, 75).Done?
            && Unfold(Joined(Parts(line, 0, 75).parts)) == line + "\r\n"
            && Unescape(line[|name|..]) == WithoutReturns(value)
  {
    hide Unfold, Joined, Parts, Escape, Unescape;
    var line := name + Escape(value);
    EscapeWellFormed(Start, value);
    RunConcat(Start, name, Escape(value));
    EscapedIsOneLine(value);
    assert '\r' !in line;
    UnescapeUndoesEscape(value);
    assert line[|name|..] == Escape(value);
    FoldsFaithfully(line);
  }
}
