/** Running many small device commands in as few `adb shell` calls as fit, and telling their outputs apart. */
module ShellBatches {
  import opened PackageNames
  import DevicePaths

  const MAX_SCRIPT := 3500

  /** A command as it stands in a script, ended so that others can follow, and what it prints. */
  datatype Snippet = Snippet(text: string, reply: string)

  function Concat(texts: seq<string>): string {
    if texts == [] then "" else texts[0] + Concat(texts[1..])
  }

  function Texts(snippets: seq<Snippet>): (texts: seq<string>)
    ensures |texts| == |snippets|
  {
    seq(|snippets|, i requires 0 <= i < |snippets| => snippets[i].text)
  }

  /** The scripts that are run for a list of commands, `script` being what has been gathered. */
  function Scripts(script: string, texts: seq<string>): seq<string>
    decreases |texts|
  {
    if texts == [] then if script == "" then [] else [script]
    else if script != "" && |script| + |texts[0]| > MAX_SCRIPT then [script] + Scripts(texts[0], texts[1..])
    else Scripts(script + texts[0], texts[1..])
  }

  /** Nothing is lost, reordered or run twice. */
  lemma {:induction false} ScriptsConcat(script: string, texts: seq<string>)
    ensures Concat(Scripts(script, texts)) == script + Concat(texts)
    decreases |texts|
  {
    if texts == [] {
      assert script + "" == script;
    } else if script != "" && |script| + |texts[0]| > MAX_SCRIPT {
      ScriptsConcat(texts[0], texts[1..]);
      assert Scripts(script, texts)[1..] == Scripts(texts[0], texts[1..]);
    } else {
      ScriptsConcat(script + texts[0], texts[1..]);
      assert script + texts[0] + Concat(texts[1..]) == script + (texts[0] + Concat(texts[1..]));
    }
  }

  /** Every script fits, unless it is one command that does not fit by itself. */
  lemma {:induction false} ScriptsFit(script: string, texts: seq<string>, all: seq<string>)
    requires |script| <= 3500 || script in all
    requires forall text | text in texts :: text in all
    ensures forall s | s in Scripts(script, texts) :: s != "" && (|s| <= 3500 || s in all)
    decreases |texts|
  {
    if texts != [] {
      if script != "" && |script| + |texts[0]| > MAX_SCRIPT {
        ScriptsFit(texts[0], texts[1..], all);
      } else {
        if script == "" { assert script + texts[0] == texts[0]; }
        ScriptsFit(script + texts[0], texts[1..], all);
      }
    }
  }

  // ---------------------------------------------------------------- as few as possible

  /** More gathered already means no fewer scripts, and at most one more. */
  lemma {:induction false} MoreGathered(a: string, b: string, texts: seq<string>)
    requires |a| <= |b|
    ensures |Scripts(a, texts)| <= |Scripts(b, texts)| <= |Scripts(a, texts)| + 1
    decreases |texts|
  {
    if texts != [] {
      var s := texts[0];
      var flushA := a != "" && |a| + |s| > MAX_SCRIPT;
      var flushB := b != "" && |b| + |s| > MAX_SCRIPT;
      if flushA {
        MoreGathered(s, s, texts[1..]);
      } else if flushB {
        MoreGathered(s, a + s, texts[1..]);
      } else {
        MoreGathered(a + s, b + s, texts[1..]);
      }
    }
  }

  function Flatten(groups: seq<seq<string>>): seq<string> {
    if groups == [] then [] else groups[0] + Flatten(groups[1..])
  }

  /** A group that could be run as one script. */
  predicate Fits(group: seq<string>) {
    |Concat(group)| <= 3500 || |group| == 1
  }

  /** How many scripts a grouping needs: groups with nothing to run need none. */
  function Needed(groups: seq<seq<string>>): nat {
    if groups == [] then 0 else (if Concat(groups[0]) == "" then 0 else 1) + Needed(groups[1..])
  }

  /** Within a group that fits nothing is run early. */
  lemma {:induction false} GroupGathers(script: string, group: seq<string>, rest: seq<string>)
    requires |script| + |Concat(group)| <= MAX_SCRIPT
    ensures Scripts(script, group + rest) == Scripts(script + Concat(group), rest)
    decreases |group|
  {
    if group == [] {
      assert group + rest == rest && script + "" == script;
    } else {
      assert (group + rest)[0] == group[0] && (group + rest)[1..] == group[1..] + rest;
      GroupGathers(script + group[0], group[1..], rest);
      assert script + group[0] + Concat(group[1..]) == script + (group[0] + Concat(group[1..]));
    }
  }

  /** No way of grouping consecutive commands into scripts that fit needs fewer scripts. */
  lemma {:induction false} FewestScripts(groups: seq<seq<string>>)
    requires forall group | group in groups :: Fits(group)
    ensures |Scripts("", Flatten(groups))| <= Needed(groups)
    decreases |groups|
  {
    if groups != [] {
      var group := groups[0];
      var rest := Flatten(groups[1..]);
      FewestScripts(groups[1..]);
      if |Concat(group)| <= MAX_SCRIPT {
        GroupGathers("", group, rest);
        assert "" + Concat(group) == Concat(group);
      } else {
        assert group in groups && Fits(group) && |group| == 1;
        assert group == [group[0]] && Concat(group) == group[0] + "" == group[0];
        assert (group + rest)[1..] == rest;
        assert "" + group[0] == group[0];
      }
      MoreGathered("", Concat(group), rest);
      assert Scripts("", Flatten(groups)) == Scripts(Concat(group), rest);
    }
  }

  // ---------------------------------------------------------------- running them

  function Replies(snippets: seq<Snippet>): string {
    if snippets == [] then "" else snippets[0].reply + Replies(snippets[1..])
  }

  /** Nothing, or whole lines. */
  predicate Complete(text: string) {
    text == "" || text[|text| - 1] == '\n'
  }

  /** A command that prints whole lines; one that is not there prints nothing. */
  predicate Orderly(snippet: Snippet) {
    Complete(snippet.reply) && (snippet.text == "" ==> snippet.reply == "")
  }

  /** The output of the scripts, each script's replies one after the other: `reply` is what the script gathered so
      far prints. */
  function OutputOf(output: string, script: string, reply: string, snippets: seq<Snippet>): string
    decreases |snippets|
  {
    if snippets == [] then if script == "" then output else Flushed(output, reply)
    else if script != "" && |script| + |snippets[0].text| > MAX_SCRIPT then
      OutputOf(Flushed(output, reply), snippets[0].text, snippets[0].reply, snippets[1..])
    else OutputOf(output, script + snippets[0].text, reply + snippets[0].reply, snippets[1..])
  }

  /** Where every command prints whole lines the output is what the commands would have printed one by one. */
  lemma {:induction false} OrderlyOutput(output: string, script: string, reply: string, snippets: seq<Snippet>)
    requires Complete(output) && Complete(reply) && (script == "" ==> reply == "")
    requires forall snippet | snippet in snippets :: Orderly(snippet)
    ensures OutputOf(output, script, reply, snippets) == output + reply + Replies(snippets)
    decreases |snippets|
  {
    hide Flushed, Orderly, Complete;
    if snippets == [] {
      NoReply(output, script, reply);
    } else {
      var first := snippets[0];
      OrderlyNext(script, reply, first);
      if script != "" && |script| + |first.text| > MAX_SCRIPT {
        FlushedComplete(output, reply);
        OrderlyOutput(output + reply, first.text, first.reply, snippets[1..]);
        assert (output + reply) + first.reply + Replies(snippets[1..]) ==
               output + reply + (first.reply + Replies(snippets[1..]));
      } else {
        OrderlyOutput(output, script + first.text, reply + first.reply, snippets[1..]);
        assert output + (reply + first.reply) + Replies(snippets[1..]) ==
               output + reply + (first.reply + Replies(snippets[1..]));
      }
    }
  }

  lemma NoReply(output: string, script: string, reply: string)
    requires Complete(output) && Complete(reply) && (script == "" ==> reply == "")
    ensures OutputOf(output, script, reply, []) == output + reply + Replies([])
  {
  }

  lemma OrderlyNext(script: string, reply: string, next: Snippet)
    requires Orderly(next) && Complete(reply) && (script == "" ==> reply == "")
    ensures Complete(next.reply) && Complete(reply + next.reply)
    ensures script + next.text == "" ==> reply + next.reply == ""
    ensures next.text == "" ==> next.reply == ""
  {
    CompleteAppend(reply, next.reply);
  }

  lemma FlushedComplete(output: string, reply: string)
    requires Complete(output) && Complete(reply)
    ensures Flushed(output, reply) == output + reply && Complete(output + reply)
  {
    CompleteAppend(output, reply);
  }

  /** Runs the commands: the scripts are those of `Scripts`, and the output is theirs. */
  method RunShellBatches(snippets: seq<Snippet>) returns (output: string, ghost scripts: seq<string>)
    ensures scripts == Scripts("", Texts(snippets))
    ensures output == OutputOf("", "", "", snippets)
  {
    hide Scripts, OutputOf, Flushed;
    output, scripts := "", [];
    var script, reply := "", "";
    assert Texts(snippets)[0..] == Texts(snippets) && snippets[0..] == snippets;
    for i := 0 to |snippets|
      invariant scripts + Scripts(script, Texts(snippets)[i..]) == Scripts("", Texts(snippets))
      invariant OutputOf(output, script, reply, snippets[i..]) == OutputOf("", "", "", snippets)
    {
      var snippet := snippets[i];
      ScriptStep(script, Texts(snippets), i, scripts);
      OutputStep(output, script, reply, snippets, i);
      if script != "" && |script| + |snippet.text| > MAX_SCRIPT {
        scripts := scripts + [script];
        output := Flushed(output, reply);
        script, reply := "", "";
      }
      script := script + snippet.text;
      reply := reply + snippet.reply;
    }
    LastStep(script, Texts(snippets), scripts, output, reply, snippets);
    if script != "" {
      scripts := scripts + [script];
      output := Flushed(output, reply);
    }
  }

  /** The output with one more script's, ended by a line end. */
  function Flushed(output: string, reply: string): (r: string)
    ensures Complete(r)
    ensures Complete(output) && Complete(reply) ==> r == output + reply
  {
    var all := output + reply;
    if all != "" && all[|all| - 1] != '\n' then all + "\n" else all
  }

  lemma CompleteAppend(a: string, b: string)
    requires Complete(a)
    ensures Complete(b) ==> Complete(a + b)
  {
    if b == "" { assert a + b == a; }
  }

  lemma ScriptStep(script: string, texts: seq<string>, i: nat, scripts: seq<string>)
    requires i < |texts|
    ensures scripts + Scripts(script, texts[i..]) ==
            if script != "" && |script| + |texts[i]| > MAX_SCRIPT
            then (scripts + [script]) + Scripts("" + texts[i], texts[i + 1..])
            else scripts + Scripts(script + texts[i], texts[i + 1..])
  {
    assert texts[i..][1..] == texts[i + 1..] && "" + texts[i] == texts[i];
  }

  lemma OutputStep(output: string, script: string, reply: string, snippets: seq<Snippet>, i: nat)
    requires i < |snippets|
    ensures OutputOf(output, script, reply, snippets[i..]) ==
            if script != "" && |script| + |snippets[i].text| > MAX_SCRIPT
            then OutputOf(Flushed(output, reply), "" + snippets[i].text, "" + snippets[i].reply, snippets[i + 1..])
            else OutputOf(output, script + snippets[i].text, reply + snippets[i].reply, snippets[i + 1..])
  {
    hide Flushed;
    assert snippets[i..][1..] == snippets[i + 1..];
    assert "" + snippets[i].text == snippets[i].text && "" + snippets[i].reply == snippets[i].reply;
  }

  lemma LastStep(script: string, texts: seq<string>, scripts: seq<string>, output: string, reply: string,
                 snippets: seq<Snippet>)
    ensures scripts + Scripts(script, texts[|texts|..]) == scripts + if script == "" then [] else [script]
    ensures OutputOf(output, script, reply, snippets[|snippets|..]) ==
            if script == "" then output else Flushed(output, reply)
  {
    hide Flushed;
  }

  // ---------------------------------------------------------------- one answer per package

  datatype Package = Package(name: string, apkPaths: seq<string>)

  const MARKER := "@@abp:"

  function Quote(name: string): string {
    "'" + (QuoteChars(name) + "'")
  }

  function QuoteChars(text: string): string {
    if text == "" then "" else (if text[0] == '\'' then "'\\''" else [text[0]]) + QuoteChars(text[1..])
  }

  /** What a shell makes of a word: quotes keep everything up to the next quote, outside of them a backslash keeps the
      character after it (POSIX.1-2017, Shell Command Language, section 2.2). */
  function Word(text: string, quoted: bool): string
    decreases |text|
  {
    if text == "" then ""
    else if text[0] == '\'' then Word(text[1..], !quoted)
    else if !quoted && text[0] == '\\' && |text| > 1 then [text[1]] + Word(text[2..], quoted)
    else [text[0]] + Word(text[1..], quoted)
  }

  /** Nothing stands outside of quotes but characters after a backslash, and the last quote is closed. */
  predicate Protected(text: string, quoted: bool)
    decreases |text|
  {
    if text == "" then !quoted
    else if text[0] == '\'' then Protected(text[1..], !quoted)
    else if quoted then Protected(text[1..], quoted)
    else text[0] == '\\' && |text| > 1 && Protected(text[2..], quoted)
  }

  lemma EscapedQuote(rest: string)
    ensures Word("'\\''" + rest, true) == "'" + Word(rest, true)
    ensures Protected("'\\''" + rest, true) == Protected(rest, true)
  {
    var whole := "'\\''" + rest;
    assert whole[1..] == "\\''" + rest && whole[1..][2..] == "'" + rest && ("'" + rest)[1..] == rest;
    assert Word(whole[1..][2..], false) == Word(rest, true);
    assert Word(whole[1..], false) == ['\''] + Word(rest, true);
    assert Protected(whole[1..][2..], false) == Protected(rest, true);
  }

  lemma {:induction false} QuoteCharsRead(text: string)
    ensures Protected(QuoteChars(text) + "'", true) && Word(QuoteChars(text) + "'", true) == text
  {
    if text == "" {
      assert QuoteChars(text) + "'" == "'" && "'"[1..] == "";
    } else {
      QuoteCharsRead(text[1..]);
      var rest := QuoteChars(text[1..]) + "'";
      var whole := QuoteChars(text) + "'";
      if text[0] == '\'' {
        assert whole == "'\\''" + rest;
        EscapedQuote(rest);
      } else {
        assert whole == [text[0]] + rest && whole[1..] == rest;
      }
    }
  }

  /** A shell reads what is quoted as the text itself, whatever it holds. */
  lemma QuotedIsOneWord(text: string)
    ensures Protected(Quote(text), false) && Word(Quote(text), false) == text
  {
    QuoteCharsRead(text);
    assert Quote(text)[1..] == QuoteChars(text) + "'";
  }

  /** Asks for a package's APKs; the device prints the marker line and what it answers for the package. */
  function Ask(name: string, answer: string -> string): Snippet {
    Snippet("echo " + Quote(MARKER + name) + "; pm path " + Quote(name) + " 2>/dev/null; ",
            MARKER + name + "\n" + answer(name))
  }

  lemma {:induction false} PlainIsQuotedAsIs(text: string)
    requires '\'' !in text
    ensures QuoteChars(text) == text
  {
    if text != "" { PlainIsQuotedAsIs(text[1..]); }
  }

  lemma AskPieces(name: string, answer: string -> string)
    requires IsValidPackageName(name)
    ensures Ask(name, answer).text ==
            "echo " + ("'" + (("@@abp:" + name) + "'")) + "; pm path " + ("'" + (name + "'")) + " 2>/dev/null; "
  {
    assert '\'' !in name;
    hide IsValidPackageName;
    PlainIsQuotedAsIs(name);
    PlainIsQuotedAsIs(MARKER + name);
    hide QuoteChars;
  }

  lemma QuotesMeet()
    ensures "echo " + "'" + "@@abp:" == "echo '@@abp:"
    ensures "'" + "; pm path " + "'" == "'; pm path '"
    ensures "'" + " 2>/dev/null; " == "' 2>/dev/null; "
  {
  }

  /** What the shell is given for a package: no character of a valid name needs escaping. */
  lemma AsksPlainly(name: string, answer: string -> string)
    requires IsValidPackageName(name)
    ensures Ask(name, answer).text == "echo '@@abp:" + name + "'; pm path '" + name + "' 2>/dev/null; "
  {
    hide Ask, IsValidPackageName;
    AskPieces(name, answer);
    SamePieces("echo ", "'", "@@abp:", name, "; pm path ", " 2>/dev/null; ");
    QuotesMeet();
  }

  lemma SamePieces(a: string, q: string, m: string, n: string, p: string, e: string)
    ensures a + (q + ((m + n) + q)) + p + (q + (n + q)) + e == (a + q + m) + n + (q + p + q) + n + (q + e)
  {
  }

  /** The pieces of a text between line ends. */
  function Split(text: string): (parts: seq<string>)
    ensures parts != []
  {
    if text == "" then [""]
    else
      Grown(Split(text[..|text| - 1]), text[|text| - 1])
  }

  /** The pieces with one more character. */
  function Grown(parts: seq<string>, c: char): (r: seq<string>)
    requires parts != []
    ensures r != []
  {
    if c == '\n' then parts + [""] else parts[..|parts| - 1] + [parts[|parts| - 1] + [c]]
  }

  lemma GrownAppend(front: seq<string>, parts: seq<string>, c: char)
    requires parts != []
    ensures Grown(front + parts, c) == front + Grown(parts, c)
  {
    var all := front + parts;
    assert all[|all| - 1] == parts[|parts| - 1];
    if c == '\n' {
      assert all + [""] == front + (parts + [""]);
    } else {
      assert all[..|all| - 1] == front + parts[..|parts| - 1];
    }
  }

  method SplitLines(text: string) returns (parts: seq<string>)
    ensures parts == Split(text)
  {
    parts := [];
    var current := "";
    for i := 0 to |text|
      invariant parts + [current] == Split(text[..i])
    {
      assert text[..i + 1][..i] == text[..i];
      ghost var before := Split(text[..i]);
      assert before[..|before| - 1] == parts && before[|before| - 1] == current;
      if text[i] == '\n' {
        parts := parts + [current];
        current := "";
      } else {
        current := current + [text[i]];
      }
    }
    assert text[..|text|] == text;
    parts := parts + [current];
  }

  /** The whole lines of a complete text. */
  function Lines(text: string): seq<string> {
    Split(text)[..|Split(text)| - 1]
  }

  lemma {:induction false} SplitAppend(a: string, b: string)
    requires Complete(a)
    ensures Split(a + b) == Lines(a) + Split(b)
    decreases |b|
  {
    hide Grown, Lines;
    if b == "" {
      assert a + b == a;
      CompleteSplit(a);
    } else {
      var last := |b| - 1;
      assert (a + b)[..|a + b| - 1] == a + b[..last] && (a + b)[|a + b| - 1] == b[last];
      SplitAppend(a, b[..last]);
      GrownAppend(Lines(a), Split(b[..last]), b[last]);
    }
  }

  lemma CompleteSplit(a: string)
    requires Complete(a)
    ensures Split(a) == Lines(a) + [""]
  {
    var parts := Split(a);
    assert parts[|parts| - 1] == "";
  }

  datatype Found = Found(name: string, paths: seq<string>)

  const PACKAGE := "package:"

  /** What one line of the output adds. */
  function Add(found: seq<Found>, raw: string): seq<Found> {
    var line := DevicePaths.Trim(raw);
    if MARKER <= line then found + [Found(line[|MARKER|..], [])]
    else if found != [] && PACKAGE <= line then
      var last := found[|found| - 1];
      found[..|found| - 1] + [last.(paths := last.paths + [line[|PACKAGE|..]])]
    else found
  }

  function Gather(found: seq<Found>, lines: seq<string>): seq<Found>
    decreases |lines|
  {
    if lines == [] then found else Gather(Add(found, lines[0]), lines[1..])
  }

  /** The paths in a package's answer. */
  function PathsIn(lines: seq<string>): seq<string> {
    if lines == [] then []
    else
      var line := DevicePaths.Trim(lines[0]);
      (if PACKAGE <= line then [line[|PACKAGE|..]] else []) + PathsIn(lines[1..])
  }

  /** A package keeps what it had unless the device answered with a path. */
  function Resolved(package: Package, answer: string -> string): Package {
    var paths := PathsIn(Lines(answer(package.name)));
    if IsValidPackageName(package.name) && paths != [] then package.(apkPaths := paths) else package
  }

  /** The device answers in whole lines, none of which looks like a marker. */
  predicate Sensible(answer: string) {
    Complete(answer) && forall line | line in Lines(answer) :: !(MARKER <= DevicePaths.Trim(line))
  }

  /** A line as `pm path` prints it, with white space around it, or one that says something else. */
  datatype Line = Path(lead: string, path: string, trail: string) | Remark(text: string)

  function LineText(line: Line): string {
    match line
    case Path(lead, path, trail) => lead + ("package:" + path + trail)
    case Remark(text) => text
  }

  predicate IsLine(line: Line) {
    match line
    case Path(lead, path, trail) =>
      && DevicePaths.Blank(lead) && DevicePaths.Blank(trail) && !DevicePaths.EndsBlank(path)
      && '\n' !in lead && '\n' !in path && '\n' !in trail
    case Remark(text) => '\n' !in text && !("package:" <= DevicePaths.Trim(text))
  }

  function Printed(lines: seq<Line>): string {
    if lines == [] then "" else LineText(lines[0]) + "\n" + Printed(lines[1..])
  }

  function PathsOf(lines: seq<Line>): seq<string> {
    if lines == [] then [] else (if lines[0].Path? then [lines[0].path] else []) + PathsOf(lines[1..])
  }

  lemma LineReads(line: Line)
    requires IsLine(line)
    ensures '\n' !in LineText(line)
    ensures var text := DevicePaths.Trim(LineText(line));
            if line.Path? then PACKAGE <= text && text[|PACKAGE|..] == line.path else !(PACKAGE <= text)
  {
    if line.Path? {
      var text := "package:" + line.path;
      assert text[|text| - 1] == if line.path == "" then ':' else line.path[|line.path| - 1];
      assert line.path != "" ==> DevicePaths.EndsBlank(text) == DevicePaths.EndsBlank(line.path);
      assert line.path == "" ==> !DevicePaths.EndsBlank(text) by { DevicePaths.BlankOne(':'); }
      DevicePaths.BlankOne('p');
      DevicePaths.TrimIs(line.lead, text, line.trail);
    }
  }

  /** The paths found in an answer are those of its lines that give one, in order. */
  lemma {:induction false} PathsAreRead(lines: seq<Line>)
    requires forall i | 0 <= i < |lines| :: IsLine(lines[i])
    ensures Complete(Printed(lines)) && PathsIn(Lines(Printed(lines))) == PathsOf(lines)
  {
    hide IsLine, DevicePaths.Trim, Split;
    if lines == [] {
      SplitNothing();
    } else {
      var text, rest := LineText(lines[0]), Printed(lines[1..]);
      PathsAreRead(lines[1..]);
      LineReads(lines[0]);
      LineSplits(text);
      CompleteAppend(text + "\n", rest);
      SplitAppend(text + "\n", rest);
      CompleteSplit(rest);
      assert Lines(text + "\n" + rest) == [text] + Lines(rest);
    }
  }

  lemma LineSplits(text: string)
    requires '\n' !in text
    ensures Complete(text + "\n") && Lines(text + "\n") == [text]
  {
    hide Split;
    OneLine(text);
    SplitLast(text + "\n");
    assert (text + "\n")[..|text|] == text;
  }

  lemma {:induction false} GatherAppend(found: seq<Found>, a: seq<string>, b: seq<string>)
    ensures Gather(found, a + b) == Gather(Gather(found, a), b)
    decreases |a|
  {
    if a == [] {
      assert a + b == b;
    } else {
      assert (a + b)[0] == a[0] && (a + b)[1..] == a[1..] + b;
      GatherAppend(Add(found, a[0]), a[1..], b);
    }
  }

  lemma {:induction false} GatherAnswer(found: seq<Found>, name: string, paths: seq<string>, lines: seq<string>)
    requires forall line | line in lines :: !(MARKER <= DevicePaths.Trim(line))
    ensures Gather(found + [Found(name, paths)], lines) == found + [Found(name, paths + PathsIn(lines))]
    decreases |lines|
  {
    hide DevicePaths.Trim;
    var now := found + [Found(name, paths)];
    if lines == [] {
      assert paths + [] == paths;
    } else {
      var line := DevicePaths.Trim(lines[0]);
      assert !(MARKER <= line);
      assert now[..|now| - 1] == found;
      if PACKAGE <= line {
        var path := line[|PACKAGE|..];
        GatherAnswer(found, name, paths + [path], lines[1..]);
        assert paths + [path] + PathsIn(lines[1..]) == paths + ([path] + PathsIn(lines[1..]));
      } else {
        GatherAnswer(found, name, paths, lines[1..]);
        assert [] + PathsIn(lines[1..]) == PathsIn(lines[1..]);
      }
    }
  }

  lemma TrimKeeps(text: string)
    requires text != "" && !DevicePaths.Space(text[0]) && !DevicePaths.Space(text[|text| - 1])
    ensures DevicePaths.Trim(text) == text
  {
  }

  lemma {:induction false} OneLine(text: string)
    requires '\n' !in text
    ensures Split(text) == [text]
  {
    hide Split, Grown;
    if text == "" {
      SplitNothing();
    } else {
      var before, c := text[..|text| - 1], text[|text| - 1];
      assert c in text && before + [c] == text;
      OneLine(before);
      SplitLast(text);
      GrownLine(before, c);
    }
  }

  lemma SplitNothing()
    ensures Split("") == [""]
  {
  }

  lemma SplitLast(text: string)
    requires text != ""
    ensures Split(text) == Grown(Split(text[..|text| - 1]), text[|text| - 1])
  {
  }

  lemma GrownLine(line: string, c: char)
    requires c != '\n'
    ensures Grown([line], c) == [line + [c]]
  {
  }

  lemma MarkerLine(name: string)
    requires IsValidPackageName(name)
    ensures Lines(MARKER + name + "\n") == [MARKER + name]
    ensures Complete(MARKER + name + "\n") && DevicePaths.Trim(MARKER + name) == MARKER + name
    ensures (MARKER + name)[|MARKER|..] == name && MARKER <= MARKER + name
  {
    var line := MARKER + name;
    assert forall i | 0 <= i < |name| :: name[i] != '\n';
    OneLine(line);
    assert (line + "\n")[..|line|] == line;
    assert line[|line| - 1] == name[|name| - 1];
    TrimKeeps(line);
  }

  function Asked(packages: seq<Package>, answer: string -> string): seq<Snippet> {
    if packages == [] then []
    else (if IsValidPackageName(packages[0].name) then [Ask(packages[0].name, answer)] else []) +
         Asked(packages[1..], answer)
  }

  /** What should be found: one entry for every valid name, in order. */
  function Answers(packages: seq<Package>, answer: string -> string): seq<Found> {
    if packages == [] then []
    else (if IsValidPackageName(packages[0].name)
          then [Found(packages[0].name, PathsIn(Lines(answer(packages[0].name))))] else []) +
         Answers(packages[1..], answer)
  }

  lemma {:induction false} AskedOrderly(packages: seq<Package>, answer: string -> string)
    requires forall name :: Sensible(answer(name))
    ensures forall snippet | snippet in Asked(packages, answer) :: Orderly(snippet)
  {
    hide Quote, IsValidPackageName;
    if packages != [] {
      AskedOrderly(packages[1..], answer);
      var name := packages[0].name;
      assert Sensible(answer(name));
      assert Complete(MARKER + name + "\n");
      CompleteAppend(MARKER + name + "\n", answer(name));
    }
  }

  /** The output of all the questions together is read as the answers one by one. */
  lemma {:induction false} GathersAnswers(found: seq<Found>, packages: seq<Package>, answer: string -> string)
    requires forall name :: Sensible(answer(name))
    ensures Gather(found, Split(Replies(Asked(packages, answer)))) == found + Answers(packages, answer)
    decreases |packages|
  {
    hide IsValidPackageName, Split, Gather, DevicePaths.Trim, Lines, PathsIn, Ask, Sensible;
    if packages == [] {
      NothingGathered(found);
    } else if !IsValidPackageName(packages[0].name) {
      GathersAnswers(found, packages[1..], answer);
      assert [] + Asked(packages[1..], answer) == Asked(packages[1..], answer);
      assert [] + Answers(packages[1..], answer) == Answers(packages[1..], answer);
    } else {
      var name := packages[0].name;
      var first := Found(name, PathsIn(Lines(answer(name))));
      var rest := Replies(Asked(packages[1..], answer));
      AskedReplies(packages, answer);
      assert Sensible(answer(name));
      GatherBlock(found, name, answer(name), rest);
      GathersAnswers(found + [first], packages[1..], answer);
      Regroup(found, first, Answers(packages[1..], answer));
    }
  }

  lemma Regroup(found: seq<Found>, first: Found, rest: seq<Found>)
    ensures found + [first] + rest == found + ([first] + rest)
  {
  }

  /** One package's marker and answer, whatever follows. */
  lemma GatherBlock(found: seq<Found>, name: string, answer: string, rest: string)
    requires IsValidPackageName(name) && Sensible(answer)
    ensures Gather(found, Split(MARKER + name + "\n" + (answer + rest))) ==
            Gather(found + [Found(name, PathsIn(Lines(answer)))], Split(rest))
  {
    hide IsValidPackageName, Split, Gather, DevicePaths.Trim, Lines, PathsIn;
    var head := MARKER + name + "\n";
    MarkerLine(name);
    SplitAppend(head, answer + rest);
    SplitAppend(answer, rest);
    GatherAppend(found, [MARKER + name], Lines(answer) + Split(rest));
    GatherMarker(found, name);
    GatherAppend(found + [Found(name, [])], Lines(answer), Split(rest));
    GatherAnswer(found, name, [], Lines(answer));
    assert [] + PathsIn(Lines(answer)) == PathsIn(Lines(answer));
  }

  lemma NothingGathered(found: seq<Found>)
    ensures Gather(found, Split("")) == found && found + [] == found
  {
    assert Add(found, "") == found;
  }

  lemma GatherMarker(found: seq<Found>, name: string)
    requires IsValidPackageName(name)
    ensures Gather(found, [MARKER + name]) == found + [Found(name, [])]
  {
    hide IsValidPackageName;
    MarkerLine(name);
    assert Gather(Add(found, MARKER + name), [MARKER + name][1..]) == Add(found, MARKER + name);
  }

  lemma {:induction false} AskedReplies(packages: seq<Package>, answer: string -> string)
    requires packages != [] && IsValidPackageName(packages[0].name)
    ensures Replies(Asked(packages, answer)) ==
            (MARKER + packages[0].name + "\n") + (answer(packages[0].name) + Replies(Asked(packages[1..], answer)))
  {
    hide IsValidPackageName, Quote;
    var asked := Asked(packages, answer);
    assert asked[0] == Ask(packages[0].name, answer) && asked[1..] == Asked(packages[1..], answer);
  }

  /** The first entry of this name that has paths. */
  function FirstWith(found: seq<Found>, name: string): seq<string> {
    if found == [] then []
    else if found[0].name == name && found[0].paths != [] then found[0].paths
    else FirstWith(found[1..], name)
  }

  lemma {:induction false} FirstIsTheAnswer(packages: seq<Package>, answer: string -> string, name: string)
    ensures FirstWith(Answers(packages, answer), name) ==
            if IsValidPackageName(name) && exists i :: 0 <= i < |packages| && packages[i].name == name
            then PathsIn(Lines(answer(name))) else []
  {
    hide IsValidPackageName, Lines, PathsIn;
    if packages != [] {
      FirstIsTheAnswer(packages[1..], answer, name);
      var rest := Answers(packages[1..], answer);
      assert forall i | 0 <= i < |packages[1..]| :: packages[1..][i] == packages[i + 1];
      if packages[0].name == name {
        assert (exists i :: 0 <= i < |packages| && packages[i].name == name);
      } else {
        assert (exists i :: 0 <= i < |packages| && packages[i].name == name) <==>
               (exists i :: 0 <= i < |packages[1..]| && packages[1..][i].name == name) by {
          if i :| 0 <= i < |packages| && packages[i].name == name { assert packages[1..][i - 1].name == name; }
        }
      }
      if IsValidPackageName(packages[0].name) {
        var first := Found(packages[0].name, PathsIn(Lines(answer(packages[0].name))));
        assert Answers(packages, answer) == [first] + rest && ([first] + rest)[1..] == rest;
      } else {
        assert [] + rest == rest;
      }
    }
  }

  method AskAll(packages: seq<Package>, answer: string -> string) returns (snippets: seq<Snippet>)
    ensures snippets == Asked(packages, answer)
  {
    hide IsValidPackageName, Ask;
    snippets := [];
    assert packages[0..] == packages;
    for i := 0 to |packages|
      invariant snippets + Asked(packages[i..], answer) == Asked(packages, answer)
    {
      assert packages[i..][1..] == packages[i + 1..];
      if IsValidPackageName(packages[i].name) { snippets := snippets + [Ask(packages[i].name, answer)]; }
    }
  }

  /** What the output of all the questions is read as, whatever the device prints. */
  function Read(packages: seq<Package>, answer: string -> string): seq<Found> {
    Gather([], Split(OutputOf("", "", "", Asked(packages, answer))))
  }

  /** A package with the paths found for it, if there are any. */
  function Given(package: Package, paths: seq<string>): Package {
    if paths != [] then package.(apkPaths := paths) else package
  }

  /** From a device that answers in whole lines without markers, every answer is read for what it is. */
  lemma ReadsAnswers(packages: seq<Package>, answer: string -> string)
    requires forall name :: Sensible(answer(name))
    ensures Read(packages, answer) == Answers(packages, answer)
  {
    hide IsValidPackageName, Sensible, Split, Gather, Answers, Replies, Asked, OutputOf;
    AskedOrderly(packages, answer);
    OrderlyOutput("", "", "", Asked(packages, answer));
    GathersAnswers([], packages, answer);
    assert "" + "" + Replies(Asked(packages, answer)) == Replies(Asked(packages, answer));
    assert [] + Answers(packages, answer) == Answers(packages, answer);
  }

  /** Asks for all packages at once. From a sensible device each gets what asking for it alone would give. */
  method ResolveApkPaths(packages: seq<Package>, answer: string -> string) returns (r: seq<Package>)
    ensures |r| == |packages|
    ensures forall i | 0 <= i < |r| ::
              r[i] == Given(packages[i], FirstWith(Read(packages, answer), packages[i].name))
    ensures (forall name :: Sensible(answer(name))) ==>
              forall i | 0 <= i < |r| :: r[i] == Resolved(packages[i], answer)
  {
    hide IsValidPackageName, Lines, PathsIn, Sensible, Split, Gather, Answers, Replies, FirstWith, Asked, Scripts,
         Resolved, OutputOf;
    r := packages;
    var snippets := AskAll(packages, answer);
    var output;
    ghost var scripts;
    output, scripts := RunShellBatches(snippets);
    var lines := SplitLines(output);
    var found := GatherLines(lines);
    for i := 0 to |packages|
      invariant |r| == |packages|
      invariant forall j | 0 <= j < i :: r[j] == Given(packages[j], FirstWith(found, packages[j].name))
      invariant forall j | i <= j < |r| :: r[j] == packages[j]
    {
      var paths := ChoosePaths(found, packages[i].name);
      if paths != [] { r := r[i := r[i].(apkPaths := paths)]; }
    }
    if forall name :: Sensible(answer(name)) {
      ReadsAnswers(packages, answer);
      forall i | 0 <= i < |r| ensures r[i] == Resolved(packages[i], answer) { ResolvedIs(packages, answer, i); }
    }
  }

  lemma ResolvedIs(packages: seq<Package>, answer: string -> string, i: nat)
    requires i < |packages|
    ensures var paths := FirstWith(Answers(packages, answer), packages[i].name);
            Resolved(packages[i], answer) == if paths != [] then packages[i].(apkPaths := paths) else packages[i]
  {
    hide IsValidPackageName, Lines, PathsIn, Answers, FirstWith;
    FirstIsTheAnswer(packages, answer, packages[i].name);
    assert packages[i].name == packages[i].name;
  }

  method ChoosePaths(found: seq<Found>, name: string) returns (paths: seq<string>)
    ensures paths == FirstWith(found, name)
  {
    for k := 0 to |found|
      invariant FirstWith(found, name) == FirstWith(found[k..], name)
    {
      assert found[k..][1..] == found[k + 1..];
      if found[k].name == name && found[k].paths != [] { return found[k].paths; }
    }
    return [];
  }

  method GatherLines(lines: seq<string>) returns (found: seq<Found>)
    ensures found == Gather([], lines)
  {
    hide DevicePaths.Trim;
    found := [];
    for i := 0 to |lines|
      invariant Gather(found, lines[i..]) == Gather([], lines)
    {
      assert lines[i..][1..] == lines[i + 1..];
      var line := DevicePaths.Trim(lines[i]);
      if MARKER <= line {
        found := found + [Found(line[|MARKER|..], [])];
      } else if found != [] && PACKAGE <= line {
        var last := found[|found| - 1];
        found := found[..|found| - 1] + [last.(paths := last.paths + [line[|PACKAGE|..]])];
      }
    }
  }

  /** What is read for a package from the output of the scripts that ask for all of them at once is what would be read
      for it from a script that asks for it alone, if the device answers in whole lines without markers. */
  lemma AsOneByOne(packages: seq<Package>, answer: string -> string, i: nat)
    requires i < |packages|
    ensures (forall name :: Sensible(answer(name))) ==>
              FirstWith(Read(packages, answer), packages[i].name) ==
              FirstWith(Read([packages[i]], answer), packages[i].name)
  {
    hide IsValidPackageName, Lines, PathsIn, FirstWith, Answers, Read, Sensible;
    if forall name :: Sensible(answer(name)) {
      ReadsAnswers(packages, answer);
      ReadsAnswers([packages[i]], answer);
    }
    FirstIsTheAnswer(packages, answer, packages[i].name);
    FirstIsTheAnswer([packages[i]], answer, packages[i].name);
    assert [packages[i]][0].name == packages[i].name;
  }

  lemma {:induction false} QuotedLength(text: string)
    ensures |QuoteChars(text)| <= 4 * |text|
  {
    if text != "" { QuotedLength(text[1..]); }
  }

  lemma {:induction false} AskedShort(packages: seq<Package>, answer: string -> string)
    ensures forall snippet | snippet in Asked(packages, answer) :: |snippet.text| <= MAX_SCRIPT
  {
    hide QuoteChars;
    if packages != [] {
      AskedShort(packages[1..], answer);
      QuotedLength(packages[0].name);
      QuotedLength(MARKER + packages[0].name);
    }
  }

  /** No question is longer than a script may be, so no script is. */
  lemma AskedFit(packages: seq<Package>, answer: string -> string)
    ensures forall s | s in Scripts("", Texts(Asked(packages, answer))) :: |s| <= 3500
  {
    hide Scripts, Asked;
    var snippets := Asked(packages, answer);
    AskedShort(packages, answer);
    var texts := Texts(snippets);
    ScriptsFit("", texts, texts);
    forall text | text in texts ensures |text| <= MAX_SCRIPT {
      var i :| 0 <= i < |texts| && texts[i] == text;
      assert snippets[i] in snippets;
    }
  }
}
