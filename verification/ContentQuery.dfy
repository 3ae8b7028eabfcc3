/** Reading back what Android's `content query` prints: one line per row, `Row: <n> a=..., b=...`, with values
    that are not escaped in any way. */
module ContentQuery {
  import opened Wrappers
  import opened Text
  import Json

  type Row = map<string, string>

  function NullToEmpty(value: string): string {
    if value == "NULL" then "" else value
  }

  predicate LineEnd(c: char) {
    c == '\n' || c == '\r'
  }

  /** Without the line ends at the end. */
  function Strip(text: string): (r: string)
    ensures r <= text
  {
    if text != "" && LineEnd(text[|text| - 1]) then Strip(text[..|text| - 1]) else text
  }

  /** Carriage returns and line feeds at the end go, and nothing else. */
  lemma {:induction false} StripIs(text: string, ends: string)
    requires text != "" ==> text[|text| - 1] != '\n' && text[|text| - 1] != '\r'
    requires forall i | 0 <= i < |ends| :: ends[i] == '\n' || ends[i] == '\r'
    ensures Strip(text + ends) == text
  {
    if ends == "" {
      assert text + ends == text;
    } else {
      assert (text + ends)[..|text + ends| - 1] == text + ends[..|ends| - 1];
      StripIs(text, ends[..|ends| - 1]);
    }
  }

  // ---------------------------------------------------------------- where rows start

  function Marker(k: nat, first: string): string {
    "Row: " + (Json.NatText(k) + (" " + (first + "=")))
  }

  predicate StartsHere(text: string, p: nat, marker: string) {
    (p == 0 || (p <= |text| && text[p - 1] == '\n')) && At(text, p, marker)
  }

  /** The first position from `from` on where a line starts with the marker, or -1. */
  function NextStart(text: string, from: nat, marker: string): (p: int)
    requires from <= |text|
    ensures p == -1 || (from <= p <= |text| && StartsHere(text, p, marker))
    ensures forall q | from <= q <= |text| && (p < 0 || q < p) :: !StartsHere(text, q, marker)
    decreases |text| - from
  {
    if StartsHere(text, from, marker) then from
    else if from == |text| then -1
    else NextStart(text, from + 1, marker)
  }

  /** The starts of the rows from number k on, looking from a position on. */
  function Starts(text: string, from: nat, k: nat, first: string): (starts: seq<nat>)
    requires from <= |text|
    decreases |text| - from
  {
    var p := NextStart(text, from, Marker(k, first));
    if p < 0 then [] else
      assert At(text, p, Marker(k, first)) && |Marker(k, first)| > 0;
      [p] + Starts(text, p + 1, k + 1, first)
  }

  lemma StartsFrom(text: string, from: nat, k: nat, first: string)
    requires from <= |text|
    ensures var p := NextStart(text, from, Marker(k, first));
            Starts(text, from, k, first) ==
            (if p < 0 then [] else if p < |text| then [p] + Starts(text, p + 1, k + 1, first) else [])
  {
    hide NextStart;
    assert |Marker(k, first)| > 0;
  }

  lemma MarkersAreNotEmpty(text: string, p: nat, k: nat, first: string)
    requires At(text, p, Marker(k, first))
    ensures p < |text|
  {
  }

  method FindStarts(text: string, first: string) returns (starts: seq<nat>)
    ensures starts == Starts(text, 0, 0, first)
  {
    hide Marker, Starts, Find, At;
    starts := [];
    var pos := 0;
    while pos < |text|
      invariant pos <= |text|
      invariant starts + Starts(text, pos, |starts|, first) == Starts(text, 0, 0, first)
      decreases |text| - pos
    {
      var marker := Marker(|starts|, first);
      var found := Find(text, marker, pos);
      if found < 0 {
        NoneLeft(text, pos, |starts|, first);
        break;
      }
      MarkersAreNotEmpty(text, found, |starts|, first);
      Skip(text, pos, found, |starts|, first);
      if found == 0 || text[found - 1] == '\n' { starts := starts + [found]; }
      pos := found + 1;
    }
    if pos == |text| { NoneLeft(text, pos, |starts|, first); }
  }

  lemma NoneLeft(text: string, pos: nat, k: nat, first: string)
    requires pos <= |text| && (pos == |text| || Find(text, Marker(k, first), pos) < 0)
    ensures Starts(text, pos, k, first) == []
  {
    hide Marker, Starts, Find, At, NextStart;
    StartsFrom(text, pos, k, first);
    var p := NextStart(text, pos, Marker(k, first));
    if p >= 0 && pos == |text| { MarkersAreNotEmpty(text, p, k, first); }
  }

  /** Between two positions the marker is found at there is no start. */
  lemma Skip(text: string, pos: nat, found: nat, k: nat, first: string)
    requires pos <= found < |text| && Find(text, Marker(k, first), pos) == found
    ensures Starts(text, pos, k, first) ==
            if found == 0 || text[found - 1] == '\n' then [found] + Starts(text, found + 1, k + 1, first)
            else Starts(text, found + 1, k, first)
  {
    hide Marker, Starts, Find, At, NextStart;
    var marker := Marker(k, first);
    StartsFrom(text, pos, k, first);
    StartsFrom(text, found + 1, k, first);
    if found == 0 || text[found - 1] == '\n' {
      StartIs(text, pos, found, marker);
    } else {
      SameStart(text, pos, found + 1, marker);
    }
  }

  lemma StartIs(text: string, from: nat, p: nat, marker: string)
    requires from <= p <= |text| && StartsHere(text, p, marker)
    requires forall q | from <= q < p :: !StartsHere(text, q, marker)
    ensures NextStart(text, from, marker) == p
  {
  }

  lemma SameStart(text: string, from: nat, to: nat, marker: string)
    requires from <= to <= |text| && forall q | from <= q < to :: !StartsHere(text, q, marker)
    ensures NextStart(text, from, marker) == NextStart(text, to, marker)
  {
    var p := NextStart(text, to, marker);
    if p >= 0 { StartIs(text, from, p, marker); }
  }

  // ---------------------------------------------------------------- what a row holds

  /** The cells of a row, from a column on. Each but the last ends where the next column's name follows. */
  function ParseCells(rest: string, columns: seq<string>, row: Row): Option<Row>
    requires columns != []
    decreases |columns|
  {
    var key := columns[0] + "=";
    if !(key <= rest) then None
    else
      var value := rest[|key|..];
      if |columns| == 1 then Some(row[columns[0] := NullToEmpty(value)])
      else
        var end := Find(value, ", " + (columns[1] + "="), 0);
        if end < 0 then None
        else
          assert At(value, end, ", " + (columns[1] + "="));
          ParseCells(value[end + 2..], columns[1..], row[columns[0] := NullToEmpty(value[..end])])
  }

  function ParseRow(text: string, columns: seq<string>): Option<Row>
    requires columns != []
  {
    var stripped := Strip(text);
    var space := if |stripped| < 5 then -1 else Find(stripped, " ", 5);
    if space < 0 then None else assert At(stripped, space, " "); ParseCells(stripped[space + 1..], columns, map[])
  }

  predicate Ascending(starts: seq<nat>, from: nat, to: nat) {
    && (forall i | 0 <= i < |starts| :: from <= starts[i] <= to)
    && (forall i, j | 0 <= i < j < |starts| :: starts[i] <= starts[j])
  }

  function ParseRows(output: string, starts: seq<nat>, columns: seq<string>): seq<Row>
    requires columns != [] && Ascending(starts, 0, |output|)
    decreases |starts|
  {
    if starts == [] then []
    else
      var end := if |starts| > 1 then starts[1] else |output|;
      var row := ParseRow(output[starts[0]..end], columns);
      (if row.Some? then [row.value] else []) + ParseRows(output, starts[1..], columns)
  }

  lemma {:induction false} StartsAscend(text: string, from: nat, k: nat, first: string)
    requires from <= |text|
    ensures Ascending(Starts(text, from, k, first), from, |text|)
    decreases |text| - from
  {
    hide Marker, NextStart;
    StartsFrom(text, from, k, first);
    var p := NextStart(text, from, Marker(k, first));
    if 0 <= p < |text| { StartsAscend(text, p + 1, k + 1, first); }
  }

  ghost function Parsed(output: string, columns: seq<string>): seq<Row> {
    if columns == [] then []
    else
      StartsAscend(output, 0, 0, columns[0]);
      ParseRows(output, Starts(output, 0, 0, columns[0]), columns)
  }

  method StripLineEnds(raw: string) returns (text: string)
    ensures text == Strip(raw)
  {
    text := raw;
    while text != "" && LineEnd(text[|text| - 1])
      invariant Strip(text) == Strip(raw)
      decreases |text|
    {
      text := text[..|text| - 1];
    }
  }

  lemma CellsUnfold(rest: string, columns: seq<string>, row: Row)
    requires columns != []
    ensures var key := columns[0] + "=";
            var result := ParseCells(rest, columns, row);
            if !(key <= rest) then result == None
            else if |columns| == 1 then result == Some(row[columns[0] := NullToEmpty(rest[|key|..])])
            else
              var value := rest[|key|..];
              var end := Find(value, ", " + (columns[1] + "="), 0);
              if end < 0 then result == None
              else
                end + 2 <= |value| &&
                result == ParseCells(value[end + 2..], columns[1..], row[columns[0] := NullToEmpty(value[..end])])
  {
    hide Find, NullToEmpty;
  }

  /** The cell at a position of the text. */
  lemma CellStep(text: string, cursor: nat, columns: seq<string>, c: nat, row: Row)
    requires cursor <= |text| && c < |columns|
    ensures var key := columns[c] + "=";
            var result := ParseCells(text[cursor..], columns[c..], row);
            if !At(text, cursor, key) then result == None
            else
              var from := cursor + |key|;
              from <= |text| &&
              if c + 1 == |columns| then result == Some(row[columns[c] := NullToEmpty(text[from..])])
              else
                var end := Find(text, ", " + (columns[c + 1] + "="), from);
                if end < 0 then result == None
                else
                  end + 2 <= |text| &&
                  result == ParseCells(text[end + 2..], columns[c + 1..],
                      row[columns[c] := NullToEmpty(text[from..end])])
  {
    hide At, Find, NullToEmpty, ParseCells;
    var key := columns[c] + "=";
    CellsUnfold(text[cursor..], columns[c..], row);
    KeyHere(text, cursor, key);
    assert columns[c..][0] == columns[c] && |columns[c..]| == |columns| - c;
    if At(text, cursor, key) {
      var from := cursor + |key|;
      if c + 1 < |columns| {
        var next := ", " + (columns[c + 1] + "=");
        assert columns[c..][1] == columns[c + 1] && columns[c..][1..] == columns[c + 1..];
        FindInRest(text, from, next);
        var end := Find(text, next, from);
        if end >= 0 {
          SpaceFits(text, end, next);
          Slices(text, from, end);
        }
      }
    }
  }

  lemma Slices(text: string, from: nat, end: nat)
    requires from <= end && end + 2 <= |text|
    ensures text[from..][..end - from] == text[from..end]
    ensures text[from..][end - from + 2..] == text[end + 2..]
  {
  }

  method ReadRow(raw: string, columns: seq<string>) returns (result: Option<Row>)
    requires columns != []
    ensures result == ParseRow(raw, columns)
  {
    hide Strip, Find, At, ParseCells, NullToEmpty;
    var text := StripLineEnds(raw);
    if |text| < 5 { return None; }
    var space := Find(text, " ", 5);
    if space < 0 { return None; }
    SpaceFits(text, space, " ");
    var cursor: nat := space + 1;
    var row: Row := map[];
    assert columns[0..] == columns;
    var c := 0;
    while c < |columns|
      invariant 0 <= c <= |columns|
      invariant c < |columns| ==> cursor <= |text| && ParseRow(raw, columns) == ParseCells(text[cursor..],
          columns[c..], row)
      invariant c == |columns| ==> ParseRow(raw, columns) == Some(row)
    {
      CellStep(text, cursor, columns, c, row);
      var key := columns[c] + "=";
      if !At(text, cursor, key) { return None; }
      cursor := cursor + |key|;
      var valueEnd := |text|;
      if c + 1 < |columns| {
        var next := ", " + (columns[c + 1] + "=");
        var found := Find(text, next, cursor);
        if found < 0 { return None; }
        valueEnd := found;
      }
      assert c + 1 == |columns| ==> text[cursor..valueEnd] == text[cursor..];
      row := row[columns[c] := NullToEmpty(text[cursor..valueEnd])];
      cursor := valueEnd + 2;
      c := c + 1;
    }
    return Some(row);
  }

  lemma SpaceFits(text: string, p: nat, pattern: string)
    requires At(text, p, pattern)
    ensures p + |pattern| <= |text|
  {
  }

  lemma KeyHere(text: string, cursor: nat, key: string)
    requires cursor <= |text|
    ensures At(text, cursor, key) <==> key <= text[cursor..]
    ensures At(text, cursor, key) ==> cursor + |key| <= |text| && text[cursor..][|key|..] == text[cursor + |key|..]
  {
    if cursor + |key| <= |text| { assert text[cursor..][..|key|] == text[cursor..cursor + |key|]; }
  }

  /** Searching a text from a position on is searching the rest of it. */
  lemma FindInRest(text: string, cursor: nat, pattern: string)
    requires cursor <= |text|
    ensures var p := Find(text, pattern, cursor);
            Find(text[cursor..], pattern, 0) == if p < 0 then -1 else p - cursor
  {
    var p := Find(text, pattern, cursor);
    var q := Find(text[cursor..], pattern, 0);
    if q >= 0 { AtShift(text, cursor, q, pattern); }
    if p >= 0 { AtShift(text, cursor, p - cursor, pattern); }
  }

  /** The rows from the i-th start on. */
  lemma RowsFrom(output: string, starts: seq<nat>, i: nat, columns: seq<string>)
    requires columns != [] && Ascending(starts, 0, |output|) && i <= |starts|
    ensures Ascending(starts[i..], 0, |output|)
    ensures i == |starts| ==> ParseRows(output, starts[i..], columns) == []
    ensures i < |starts| ==>
              && Ascending(starts[i + 1..], 0, |output|)
              && var end := if i + 1 < |starts| then starts[i + 1] else |output|;
              starts[i] <= end <= |output| &&
              var row := ParseRow(output[starts[i]..end], columns);
              ParseRows(output, starts[i..], columns) ==
              (if row.Some? then [row.value] else []) + ParseRows(output, starts[i + 1..], columns)
  {
    hide ParseRow;
    if i < |starts| { assert starts[i..][1..] == starts[i + 1..]; }
  }

  method ParseContentQuery(output: string, columns: seq<string>) returns (rows: seq<Row>)
    ensures rows == Parsed(output, columns)
  {
    hide Starts, ParseRow, ParseRows, Ascending;
    rows := [];
    if columns == [] { return; }
    var starts := FindStarts(output, columns[0]);
    StartsAscend(output, 0, 0, columns[0]);
    assert starts[0..] == starts;
    RowsFrom(output, starts, |starts|, columns);
    RowsFrom(output, starts, 0, columns);
    for i := 0 to |starts|
      invariant Ascending(starts[i..], 0, |output|)
      invariant Parsed(output, columns) == rows + ParseRows(output, starts[i..], columns)
    {
      var end := if i + 1 < |starts| then starts[i + 1] else |output|;
      RowsFrom(output, starts, i, columns);
      var row := ReadRow(output[starts[i]..end], columns);
      if row.Some? { rows := rows + [row.value]; }
    }
  }

  // ---------------------------------------------------------------- reading back what was printed

  /** How a row's cells are printed. */
  function Cells(columns: seq<string>, values: seq<string>): string
    requires |columns| == |values| > 0
  {
    var cell := columns[0] + "=" + values[0];
    if |columns| == 1 then cell else cell + (", " + Cells(columns[1..], values[1..]))
  }

  function RowText(k: nat, columns: seq<string>, values: seq<string>): string
    requires |columns| == |values| > 0
  {
    "Row: " + Json.NatText(k) + " " + Cells(columns, values) + "\n"
  }

  function Printed(columns: seq<string>, rows: seq<seq<string>>, k: nat): string
    requires columns != [] && forall row | row in rows :: |row| == |columns|
  {
    if rows == [] then "" else RowText(k, columns, rows[0]) + Printed(columns, rows[1..], k + 1)
  }

  /** No value but the last contains the text that separates it from the next column: the first place it
      stands is after the value. */
  predicate Separable(columns: seq<string>, values: seq<string>)
    requires |columns| == |values|
  {
    forall c | 0 <= c < |columns| - 1 ::
      var next := ", " + (columns[c + 1] + "=");
      Find(values[c] + next, next, 0) == |values[c]|
  }

  /** What should come back: the values, NULL as nothing, the last without its trailing line ends. */
  function Expected(columns: seq<string>, values: seq<string>, row: Row): Row
    requires |columns| == |values| > 0
  {
    var value := if |columns| == 1 then Strip(values[0]) else values[0];
    var next := row[columns[0] := if value == "NULL" then "" else value];
    if |columns| == 1 then next else Expected(columns[1..], values[1..], next)
  }

  /** The cells once the line ends at the end of the last value are gone. */
  function Trimmed(values: seq<string>): seq<string>
    requires values != []
  {
    values[..|values| - 1] + [Strip(values[|values| - 1])]
  }

  lemma StripAppend(a: string, b: string)
    requires a != "" && !LineEnd(a[|a| - 1])
    ensures Strip(a + b) == a + Strip(b)
    decreases |b|
  {
    if b == "" {
      assert a + b == a;
    } else if LineEnd(b[|b| - 1]) {
      assert (a + b)[..|a + b| - 1] == a + b[..|b| - 1];
      StripAppend(a, b[..|b| - 1]);
    }
  }

  lemma StripLine(b: string)
    ensures Strip(b + "\n") == Strip(b)
  {
    assert (b + "\n")[..|b|] == b;
  }

  /** The cells of a row, stripped, are the cells with the last value stripped. */
  lemma {:induction false} StripCells(columns: seq<string>, values: seq<string>)
    requires |columns| == |values| > 0
    ensures Strip(Cells(columns, values)) == Cells(columns, Trimmed(values))
    ensures Cells(columns, values) != ""
  {
    hide Strip;
    var key := columns[0] + "=";
    if |columns| == 1 {
      StripAppend(key, values[0]);
      assert Trimmed(values)[0] == Strip(values[0]);
    } else {
      StripCells(columns[1..], values[1..]);
      assert Trimmed(values)[1..] == Trimmed(values[1..]) && Trimmed(values)[0] == values[0];
      var head := key + values[0] + ", ";
      var tail := Cells(columns[1..], values[1..]);
      assert Cells(columns, values) == head + tail;
      StripAppend(head, tail);
      assert Cells(columns, Trimmed(values)) == head + Cells(columns[1..], Trimmed(values)[1..]);
    }
  }

  /** A first occurrence stays the first one whatever follows. */
  lemma FindWithTail(value: string, next: string, tail: string)
    requires Find(value + next, next, 0) == |value|
    ensures Find(value + (next + tail), next, 0) == |value|
  {
    var whole := value + (next + tail);
    assert whole == (value + next) + tail;
    forall q | 0 <= q < |value| ensures !At(whole, q, next) {
      assert !At(value + next, q, next);
      assert (value + next)[q..q + |next|] == whole[q..q + |next|];
    }
    assert whole[|value|..|value| + |next|] == next;
    FindIs(whole, next, 0, |value|);
  }

  lemma SeparableRest(columns: seq<string>, values: seq<string>)
    requires |columns| == |values| > 1 && Separable(columns, values)
    ensures Separable(columns[1..], values[1..])
    ensures var next := ", " + (columns[1] + "="); Find(values[0] + next, next, 0) == |values[0]|
  {
    hide Find;
    forall c | 0 <= c < |columns[1..]| - 1
      ensures Find(values[1..][c] + (", " + (columns[1..][c + 1] + "=")), ", " + (columns[1..][c + 1] + "="), 0)
              == |values[1..][c]|
    {
      assert values[1..][c] == values[c + 1] && columns[1..][c + 1] == columns[c + 2];
    }
  }

  /** What the parser sees after the first key. */
  lemma AfterKey(key: string, value: string, next: string, cells: string, tail: string)
    requires |next| >= 2 && next[..2] == ", " && cells == next[2..] + tail
    ensures var text := key + value + (", " + cells);
            && key <= text && text[|key|..] == value + (next + tail)
            && text[|key|..][..|value|] == value
            && text[|key|..][|value| + 2..] == cells
  {
    var text := key + value + (", " + cells);
    assert ", " + cells == next + tail;
    assert text == key + (value + (next + tail));
    assert (next + tail)[2..] == cells;
  }

  lemma ReadsLastCell(columns: seq<string>, values: seq<string>, row: Row)
    requires |columns| == |values| == 1
    ensures ParseCells(Cells(columns, Trimmed(values)), columns, row) == Some(Expected(columns, values, row))
  {
    hide Strip;
    var key := columns[0] + "=";
    var text := Cells(columns, Trimmed(values));
    assert text[|key|..] == Trimmed(values)[0];
  }

  lemma {:induction false} ReadsCells(columns: seq<string>, values: seq<string>, row: Row)
    requires |columns| == |values| > 0 && Separable(columns, values)
    ensures ParseCells(Cells(columns, Trimmed(values)), columns, row) == Some(Expected(columns, values, row))
  {
    hide Find, Strip, Separable, ParseCells, Cells;
    if |columns| == 1 {
      ReadsLastCell(columns, values, row);
    } else {
      SeparableRest(columns, values);
      var trimmed := Trimmed(values);
      assert trimmed[0] == values[0] && trimmed[1..] == Trimmed(values[1..]);
      ReadsFirstCell(columns, trimmed, row);
      ReadsCells(columns[1..], values[1..], row[columns[0] := NullToEmpty(values[0])]);
    }
  }

  lemma ReadsFirstCell(columns: seq<string>, values: seq<string>, row: Row)
    requires |columns| == |values| > 1
    requires var next := ", " + (columns[1] + "="); Find(values[0] + next, next, 0) == |values[0]|
    ensures ParseCells(Cells(columns, values), columns, row) ==
            ParseCells(Cells(columns[1..], values[1..]), columns[1..], row[columns[0] := NullToEmpty(values[0])])
  {
    hide Find, NullToEmpty;
    var cells := Cells(columns[1..], values[1..]);
    var next := ", " + (columns[1] + "=");
    CellsStart(columns[1..], values[1..]);
    assert next[2..] == columns[1] + "=";
    var tail := cells[|columns[1]| + 1..];
    AfterKey(columns[0] + "=", values[0], next, cells, tail);
    FindWithTail(values[0], next, tail);
  }

  lemma CellsStart(columns: seq<string>, values: seq<string>)
    requires |columns| == |values| > 0
    ensures columns[0] + "=" <= Cells(columns, values)
  {
  }

  lemma DigitsHaveNoSpace(k: nat, tail: string)
    ensures Find("Row: " + Json.NatText(k) + " " + tail, " ", 5) == 5 + |Json.NatText(k)|
  {
    hide Json.NatText;
    var digits := Json.NatText(k);
    var text := "Row: " + digits + " " + tail;
    forall q | 5 <= q < 5 + |digits| ensures !At(text, q, " ") {
      assert text[q] == digits[q - 5] && Json.IsDigit(digits[q - 5]);
      assert text[q..q + 1][0] == text[q];
    }
    assert text[5 + |digits|] == ' ';
    assert text[5 + |digits|..6 + |digits|] == " ";
    FindIs(text, " ", 5, 5 + |digits|);
  }

  /** One printed row is read back. */
  lemma ReadsRow(k: nat, columns: seq<string>, values: seq<string>)
    requires |columns| == |values| > 0 && Separable(columns, values)
    ensures ParseRow(RowText(k, columns, values), columns) == Some(Expected(columns, values, map[]))
  {
    hide Strip, Find, ParseCells, Expected, Separable, Json.NatText;
    var head := "Row: " + Json.NatText(k) + " ";
    var cells := Cells(columns, values);
    var trimmed := Cells(columns, Trimmed(values));
    StripLine(head + cells);
    StripAppend(head, cells);
    StripCells(columns, values);
    DigitsHaveNoSpace(k, trimmed);
    ReadsCells(columns, values, map[]);
    assert head + trimmed == "Row: " + Json.NatText(k) + " " + trimmed;
    assert (head + trimmed)[5 + |Json.NatText(k)| + 1..] == trimmed;
  }

  /** Where the printed rows start. */
  function RowStarts(columns: seq<string>, rows: seq<seq<string>>, k: nat, offset: nat): seq<nat>
    requires columns != [] && forall row | row in rows :: |row| == |columns|
  {
    if rows == [] then []
    else [offset] + RowStarts(columns, rows[1..], k + 1, offset + |RowText(k, columns, rows[0])|)
  }

  /** No text from a position up to another looks like the start of row number k. */
  predicate NoStart(text: string, from: nat, to: nat, k: nat, first: string) {
    forall p | from <= p < to :: !StartsHere(text, p, Marker(k, first))
  }

  /** No row, its first character aside, holds the marker of the next row at the start of a line. */
  predicate Unambiguous(text: string, columns: seq<string>, rows: seq<seq<string>>, k: nat, offset: nat)
    requires columns != [] && forall row | row in rows :: |row| == |columns|
    decreases |rows|
  {
    rows != [] ==>
      var next := offset + |RowText(k, columns, rows[0])|;
      NoStart(text, offset + 1, next, k + 1, columns[0]) && Unambiguous(text, columns, rows[1..], k + 1, next)
  }

  lemma RowHasMarker(text: string, before: string, columns: seq<string>, values: seq<string>, k: nat, after: string)
    requires |columns| == |values| > 0 && text == before + RowText(k, columns, values) + after
    requires before == "" || before[|before| - 1] == '\n'
    ensures StartsHere(text, |before|, Marker(k, columns[0]))
    ensures RowText(k, columns, values) != "" && RowText(k, columns, values)[|RowText(k, columns, values)| - 1] == '\n'
  {
    hide Json.NatText;
    CellsStart(columns, values);
    var marker := Marker(k, columns[0]);
    var tail := Cells(columns, values)[|columns[0]| + 1..];
    assert Cells(columns, values) == columns[0] + "=" + tail;
    assert RowText(k, columns, values) == marker + (tail + "\n");
    assert text[|before|..|before| + |marker|] == marker;
  }

  /** The rows are found exactly where they were printed, if and only if no row looks as if it held another. */
  lemma {:induction false} StartsIff(text: string, before: string, columns: seq<string>, rows: seq<seq<string>>, k: nat)
    requires columns != [] && forall row | row in rows :: |row| == |columns|
    requires text == before + Printed(columns, rows, k)
    requires before == "" || before[|before| - 1] == '\n'
    ensures Starts(text, |before|, k, columns[0]) == RowStarts(columns, rows, k, |before|)
            <==> Unambiguous(text, columns, rows, k, |before|)
    decreases |rows|
  {
    hide Starts, StartsHere, Marker, RowText, At, NoStart, RowStarts, Printed, Unambiguous;
    if rows == [] {
      NoRowsAtAll(text, columns, k, |before|);
      NothingPrinted(text, before, k, columns[0]);
    } else {
      var next := before + RowText(k, columns, rows[0]);
      RowStartsStep(columns, rows, k, |before|);
      UnambiguousStep(text, columns, rows, k, |before|);
      FirstRowFound(text, before, columns, rows, k);
      StartsIff(text, next, columns, rows[1..], k + 1);
      RestIff(text, |before| + 1, |next|, columns, rows[1..], k + 1);
      SameTails(|before|, Starts(text, |before| + 1, k + 1, columns[0]),
                RowStarts(columns, rows[1..], k + 1, |next|));
    }
  }

  /** The first row is found where it was printed. */
  lemma FirstRowFound(text: string, before: string, columns: seq<string>, rows: seq<seq<string>>, k: nat)
    requires columns != [] && rows != [] && forall row | row in rows :: |row| == |columns|
    requires text == before + Printed(columns, rows, k)
    requires before == "" || before[|before| - 1] == '\n'
    ensures var next := before + RowText(k, columns, rows[0]);
            && text == next + Printed(columns, rows[1..], k + 1) && next != "" && next[|next| - 1] == '\n'
            && |before| + 1 <= |next| <= |text|
    ensures Starts(text, |before|, k, columns[0]) == [|before|] + Starts(text, |before| + 1, k + 1, columns[0])
  {
    hide Starts, StartsHere, Marker, RowText, At, NoStart, RowStarts, Printed;
    var row := RowText(k, columns, rows[0]);
    var after := Printed(columns, rows[1..], k + 1);
    PrintedStep(columns, rows, k);
    assert text == before + row + after;
    RowHasMarker(text, before, columns, rows[0], k, after);
    StartIs(text, |before|, |before|, Marker(k, columns[0]));
    StartsFrom(text, |before|, k, columns[0]);
    assert (before + row)[|before + row| - 1] == row[|row| - 1];
  }

  lemma NoRowsAtAll(text: string, columns: seq<string>, k: nat, offset: nat)
    requires columns != []
    ensures RowStarts(columns, [], k, offset) == [] && Printed(columns, [], k) == ""
    ensures Unambiguous(text, columns, [], k, offset)
  {
  }

  lemma UnambiguousStep(text: string, columns: seq<string>, rows: seq<seq<string>>, k: nat, offset: nat)
    requires columns != [] && rows != [] && forall row | row in rows :: |row| == |columns|
    ensures var next := offset + |RowText(k, columns, rows[0])|;
            Unambiguous(text, columns, rows, k, offset) <==>
            NoStart(text, offset + 1, next, k + 1, columns[0]) && Unambiguous(text, columns, rows[1..], k + 1, next)
  {
    hide RowText, NoStart;
  }

  lemma SameTails(p: nat, a: seq<nat>, b: seq<nat>)
    ensures [p] + a == [p] + b <==> a == b
  {
    assert ([p] + a)[1..] == a && ([p] + b)[1..] == b;
  }

  lemma NothingPrinted(text: string, before: string, k: nat, first: string)
    requires text == before
    ensures Starts(text, |before|, k, first) == []
  {
    NoneLeft(text, |before|, k, first);
  }

  /** Looking from just after a row's start or from the next row makes no difference exactly if there is no
      false start in between. */
  lemma RestIff(text: string, from: nat, next: nat, columns: seq<string>, rows: seq<seq<string>>, k: nat)
    requires from <= next <= |text| && columns != [] && forall row | row in rows :: |row| == |columns|
    ensures Starts(text, from, k, columns[0]) == RowStarts(columns, rows, k, next) <==>
            NoStart(text, from, next, k, columns[0]) &&
            Starts(text, next, k, columns[0]) == RowStarts(columns, rows, k, next)
  {
    hide Starts, StartsHere, Marker, RowText, At;
    var marker := Marker(k, columns[0]);
    StartsFrom(text, from, k, columns[0]);
    StartsFrom(text, next, k, columns[0]);
    if NoStart(text, from, next, k, columns[0]) {
      SameStart(text, from, next, marker);
    } else {
      var p :| from <= p < next && StartsHere(text, p, marker);
      var found := NextStart(text, from, marker);
      assert 0 <= found <= p;
      assert Starts(text, from, k, columns[0])[0] == found;
    }
  }

  function ExpectedRows(columns: seq<string>, rows: seq<seq<string>>): seq<Row>
    requires columns != [] && forall row | row in rows :: |row| == |columns|
  {
    if rows == [] then [] else [Expected(columns, rows[0], map[])] + ExpectedRows(columns, rows[1..])
  }

  lemma {:induction false} RowStartsAscend(columns: seq<string>, rows: seq<seq<string>>, k: nat, offset: nat)
    requires columns != [] && forall row | row in rows :: |row| == |columns|
    ensures Ascending(RowStarts(columns, rows, k, offset), offset, offset + |Printed(columns, rows, k)|)
  {
    hide RowText, Ascending;
    if rows == [] {
      NothingAscends(offset);
    } else {
      var next := offset + |RowText(k, columns, rows[0])|;
      RowStartsAscend(columns, rows[1..], k + 1, next);
      AscendsFrom(offset, RowStarts(columns, rows[1..], k + 1, next), next, offset + |Printed(columns, rows, k)|);
    }
  }

  lemma NothingAscends(offset: nat)
    ensures Ascending([], offset, offset)
  {
  }

  lemma AscendsFrom(first: nat, rest: seq<nat>, from: nat, to: nat)
    requires Ascending(rest, from, to) && first <= from <= to
    ensures Ascending([first] + rest, first, to)
  {
    var all := [first] + rest;
    assert forall i | 1 <= i < |all| :: all[i] == rest[i - 1];
  }

  lemma {:induction false} ReadsRows(text: string, before: string, columns: seq<string>, rows: seq<seq<string>>, k: nat)
    requires columns != [] && forall row | row in rows :: |row| == |columns| && Separable(columns, row)
    requires text == before + Printed(columns, rows, k)
    ensures Ascending(RowStarts(columns, rows, k, |before|), 0, |text|)
    ensures ParseRows(text, RowStarts(columns, rows, k, |before|), columns) == ExpectedRows(columns, rows)
    decreases |rows|
  {
    hide RowText, ParseRow, Expected, Separable, Ascending, RowStarts, ParseRows, Printed;
    RowStartsInside(text, before, columns, rows, k);
    if rows == [] {
      NoRows(text, columns, k, |before|);
    } else {
      var next := before + RowText(k, columns, rows[0]);
      PrintedStep(columns, rows, k);
      assert text == next + Printed(columns, rows[1..], k + 1);
      ReadsRows(text, next, columns, rows[1..], k + 1);
      ReadsRow(k, columns, rows[0]);
      RowStartsStep(columns, rows, k, |before|);
      assert text[|before|..|next|] == RowText(k, columns, rows[0]);
      ParseFirst(text, |before|, RowText(k, columns, rows[0]), RowStarts(columns, rows[1..], k + 1, |next|), columns);
    }
  }

  lemma RowStartsInside(text: string, before: string, columns: seq<string>, rows: seq<seq<string>>, k: nat)
    requires columns != [] && forall row | row in rows :: |row| == |columns|
    requires text == before + Printed(columns, rows, k)
    ensures Ascending(RowStarts(columns, rows, k, |before|), 0, |text|)
  {
    hide RowText, RowStarts, Printed;
    RowStartsAscend(columns, rows, k, |before|);
  }

  lemma NoRows(text: string, columns: seq<string>, k: nat, offset: nat)
    requires columns != []
    ensures RowStarts(columns, [], k, offset) == [] && ParseRows(text, [], columns) == []
  {
  }

  lemma PrintedStep(columns: seq<string>, rows: seq<seq<string>>, k: nat)
    requires columns != [] && rows != [] && forall row | row in rows :: |row| == |columns|
    ensures Printed(columns, rows, k) == RowText(k, columns, rows[0]) + Printed(columns, rows[1..], k + 1)
  {
  }

  /** The first row's text runs up to the second row, or the end. */
  lemma ParseFirst(text: string, offset: nat, row: string, rest: seq<nat>, columns: seq<string>)
    requires columns != [] && Ascending([offset] + rest, 0, |text|) && offset + |row| <= |text|
    requires (if rest == [] then |text| else rest[0]) == offset + |row| && text[offset..offset + |row|] == row
    ensures Ascending(rest, 0, |text|)
    ensures ParseRows(text, [offset] + rest, columns) ==
            (if ParseRow(row, columns).Some? then [ParseRow(row, columns).value] else []) + ParseRows(text, rest,
                columns)
  {
    hide ParseRow, Ascending;
    AscendingTail(offset, rest, |text|);
    var starts := [offset] + rest;
    assert starts[1..] == rest && starts[0] == offset;
    var end := if |starts| > 1 then starts[1] else |text|;
    assert end == offset + |row|;
    assert text[starts[0]..end] == row;
  }

  lemma AscendingTail(offset: nat, rest: seq<nat>, to: nat)
    requires Ascending([offset] + rest, 0, to)
    ensures Ascending(rest, 0, to)
  {
    var starts := [offset] + rest;
    forall i, j | 0 <= i < j < |rest| ensures rest[i] <= rest[j] { assert starts[i + 1] <= starts[j + 1]; }
    forall i | 0 <= i < |rest| ensures 0 <= rest[i] <= to { assert starts[i + 1] <= to; }
  }

  lemma RowStartsStep(columns: seq<string>, rows: seq<seq<string>>, k: nat, offset: nat)
    requires columns != [] && rows != [] && forall row | row in rows :: |row| == |columns|
    ensures var next := offset + |RowText(k, columns, rows[0])|;
            var rest := RowStarts(columns, rows[1..], k + 1, next);
            && RowStarts(columns, rows, k, offset) == [offset] + rest
            && (rest == [] <==> rows[1..] == []) && (rest != [] ==> rest[0] == next)
            && (rest == [] ==> Printed(columns, rows[1..], k + 1) == "")
  {
    hide RowText;
  }

  /** The parser undoes the printer for every list of rows in which no value but a last one contains the text
      that separates it from the next column, and no row holds the next expected marker at the start of a
      line. NULL reads as empty, and the last value of a row loses its trailing line ends. */
  lemma ReadsPrinted(columns: seq<string>, rows: seq<seq<string>>)
    requires columns != [] && forall row | row in rows :: |row| == |columns| && Separable(columns, row)
    requires Unambiguous(Printed(columns, rows, 0), columns, rows, 0, 0)
    ensures Parsed(Printed(columns, rows, 0), columns) == ExpectedRows(columns, rows)
  {
    hide Starts, RowStarts, ParseRows, ExpectedRows, Unambiguous, Separable, Printed;
    var text := Printed(columns, rows, 0);
    assert text == "" + text;
    StartsIff(text, "", columns, rows, 0);
    ReadsRows(text, "", columns, rows, 0);
  }

  /** Where column names hold no comma, a value separates if and only if it does not contain the separator. */
  lemma SeparableIff(value: string, column: string)
    requires ',' !in column
    ensures var next := ", " + (column + "=");
            Find(value + next, next, 0) == |value| <==> !Contains(value, next)
  {
    hide Find, At;
    var next := ", " + (column + "=");
    var whole := value + next;
    var p := Find(value, next, 0);
    if p >= 0 {
      SpaceFits(value, p, next);
      StandsInBoth(value, next, p);
    } else {
      forall q | 0 <= q < |value| ensures !At(whole, q, next) {
        if q + |next| <= |value| { StandsInBoth(value, next, q); } else { NoOverlap(value, column, q); }
      }
      StandsAfter(value, next);
      FindIs(whole, next, 0, |value|);
    }
  }

  lemma StandsAfter(value: string, next: string)
    ensures At(value + next, |value|, next)
  {
    assert (value + next)[|value|..|value| + |next|] == next;
  }

  lemma StandsInBoth(value: string, next: string, q: nat)
    requires q + |next| <= |value|
    ensures At(value + next, q, next) <==> At(value, q, next)
  {
    assert (value + next)[q..q + |next|] == value[q..q + |next|];
  }

  /** The separator cannot start inside a value and run on into the separator after it: its only comma is
      its first character. */
  lemma NoOverlap(value: string, column: string, q: nat)
    requires ',' !in column && q < |value| < q + |column| + 3
    ensures !At(value + (", " + (column + "=")), q, ", " + (column + "="))
  {
    var next := ", " + (column + "=");
    var whole := value + next;
    var i := |value| - q;
    assert next[i] != ',' by { if i == 1 { } else if i < |next| - 1 { assert next[i] == column[i - 2]; } }
    assert whole[|value|] == ',';
    if q + |next| <= |whole| { assert whole[q..q + |next|][i] == whole[|value|]; }
  }
}
