/** Device paths: normalizing them, telling which lie below which, and dropping those below others. */
module DevicePaths {
  import Text

  // ---------------------------------------------------------------- one path

  predicate Space(c: char) {
    c == ' ' || '\t' <= c <= '\r'
  }

  function TrimLeft(text: string): string {
    if text != "" && Space(text[0]) then TrimLeft(text[1..]) else text
  }

  function TrimRight(text: string): string {
    if text != "" && Space(text[|text| - 1]) then TrimRight(text[..|text| - 1]) else text
  }

  function Trim(text: string): string {
    TrimRight(TrimLeft(text))
  }

  predicate Blank(text: string) {
    forall i | 0 <= i < |text| :: text[i] in {' ', '\t', '\n', 11 as char, 12 as char, '\r'}
  }

  predicate StartsBlank(text: string) {
    text != "" && Blank([text[0]])
  }

  predicate EndsBlank(text: string) {
    text != "" && Blank([text[|text| - 1]])
  }

  lemma BlankOne(c: char)
    ensures Space(c) <==> Blank([c])
  {
    assert Blank([c]) ==> [c][0] == c;
  }

  lemma {:induction false} TrimsLeft(lead: string, rest: string)
    requires Blank(lead) && !StartsBlank(rest)
    ensures TrimLeft(lead + rest) == rest
  {
    if lead == "" {
      assert lead + rest == rest;
      if rest != "" { BlankOne(rest[0]); }
    } else {
      assert (lead + rest)[1..] == lead[1..] + rest;
      assert Blank([lead[0]]);
      BlankOne(lead[0]);
      TrimsLeft(lead[1..], rest);
    }
  }

  lemma {:induction false} TrimsRight(rest: string, trail: string)
    requires Blank(trail) && !EndsBlank(rest)
    ensures TrimRight(rest + trail) == rest
  {
    var n := |trail| - 1;
    if trail == "" {
      assert rest + trail == rest;
      if rest != "" { BlankOne(rest[|rest| - 1]); }
    } else {
      assert (rest + trail)[..|rest + trail| - 1] == rest + trail[..n];
      assert Blank([trail[n]]);
      BlankOne(trail[n]);
      TrimsRight(rest, trail[..n]);
    }
  }

  /** White space at both ends goes, and nothing else. */
  lemma TrimIs(lead: string, text: string, trail: string)
    requires Blank(lead) && Blank(trail) && !StartsBlank(text) && !EndsBlank(text)
    ensures Trim(lead + (text + trail)) == text
  {
    hide Blank;
    if text == "" {
      assert text + trail == trail;
      assert lead + trail == (lead + trail) + "";
      BothBlank(lead, trail);
      TrimsLeft(lead + trail, "");
      TrimsRight("", "");
    } else {
      assert (text + trail)[0] == text[0];
      TrimsLeft(lead, text + trail);
      TrimsRight(text, trail);
    }
  }

  lemma BothBlank(a: string, b: string)
    requires Blank(a) && Blank(b)
    ensures Blank(a + b) && Blank("") && "" + "" == ""
  {
  }

  /** Runs of slashes become one. */
  function Squeeze(path: string): (r: string)
    ensures r == "" <==> path == ""
    ensures path != "" ==> r[|r| - 1] == path[|path| - 1] && r[0] == path[0]
  {
    if path == "" then ""
    else
      var last := |path| - 1;
      if last > 0 && path[last] == '/' && path[last - 1] == '/' then Squeeze(path[..last])
      else Squeeze(path[..last]) + [path[last]]
  }

  function DropSlashes(path: string): string {
    if |path| > 1 && path[|path| - 1] == '/' then DropSlashes(path[..|path| - 1]) else path
  }

  function Normalize(path: string): string {
    DropSlashes(Squeeze(path))
  }

  method NormalizePath(path: string) returns (result: string)
    ensures result == Normalize(path)
  {
    if path == "" { return path; }
    result := "";
    var previousWasSlash := false;
    for i := 0 to |path|
      invariant result == Squeeze(path[..i])
      invariant previousWasSlash <==> i > 0 && path[i - 1] == '/'
    {
      assert path[..i + 1][..i] == path[..i];
      var c := path[i];
      var skip := c == '/' && previousWasSlash;
      previousWasSlash := c == '/';
      if !skip { result := result + [c]; }
    }
    assert path[..|path|] == path;
    while |result| > 1 && result[|result| - 1] == '/'
      invariant DropSlashes(result) == Normalize(path)
      decreases |result|
    {
      result := result[..|result| - 1];
    }
  }

  predicate NoRuns(path: string) {
    forall i | 0 < i < |path| :: !(path[i] == '/' && path[i - 1] == '/')
  }

  /** A path as normalizing leaves it: no slash follows another, and none is last but the root's. */
  predicate Normal(path: string) {
    && NoRuns(path)
    && (|path| > 1 ==> path[|path| - 1] != '/')
  }

  lemma {:induction false} SqueezedHasNoRuns(path: string)
    ensures NoRuns(Squeeze(path))
  {
    if path != "" {
      var last := |path| - 1;
      SqueezedHasNoRuns(path[..last]);
      var before := Squeeze(path[..last]);
      var r := Squeeze(path);
      if r != before {
        forall i | 0 < i < |r| ensures !(r[i] == '/' && r[i - 1] == '/') {
          if i < |before| { assert r[i] == before[i] && r[i - 1] == before[i - 1]; }
        }
      }
    }
  }

  lemma {:induction false} SqueezeKeeps(path: string)
    requires NoRuns(path)
    ensures Squeeze(path) == path
  {
    if path != "" {
      SqueezeKeeps(path[..|path| - 1]);
      assert path[..|path| - 1] + [path[|path| - 1]] == path;
    }
  }

  /** Normalizing gives a normal path, keeps it absolute or relative, and leaves a normal path alone. */
  lemma NormalizeIsNormal(path: string)
    ensures Normal(Normalize(path))
    ensures Normalize(path) == "" <==> path == ""
    ensures path != "" ==> Normalize(path)[0] == path[0]
    ensures Normal(path) ==> Normalize(path) == path
  {
    SqueezedHasNoRuns(path);
    if path != "" { DropSlashesNormal(Squeeze(path)); }
    if Normal(path) { SqueezeKeeps(path); }
  }

  lemma {:induction false} DropSlashesNormal(r: string)
    requires r != "" && NoRuns(r)
    ensures Normal(DropSlashes(r)) && DropSlashes(r) != "" && DropSlashes(r)[0] == r[0]
  {
    if |r| > 1 && r[|r| - 1] == '/' { DropSlashesNormal(r[..|r| - 1]); }
  }

  // ---------------------------------------------------------------- a path's names

  /** The names along a path: what stands between its slashes. */
  function Names(path: string): seq<string> {
    Named(Text.Segments(path, '/'))
  }

  function Named(segments: seq<string>): seq<string> {
    if segments == [] then []
    else Named(segments[..|segments| - 1])
         + if segments[|segments| - 1] == "" then [] else [segments[|segments| - 1]]
  }

  lemma {:induction false} SqueezedNames(path: string)
    ensures var a, b := Text.Segments(Squeeze(path), '/'), Text.Segments(path, '/');
            Named(a[..|a| - 1]) == Named(b[..|b| - 1]) && a[|a| - 1] == b[|b| - 1]
  {
    hide Text.Segments;
    if path != "" {
      var last := |path| - 1;
      var c := path[last];
      SqueezedNames(path[..last]);
      assert path == path[..last] + [c];
      Text.SegmentsGrow(path[..last], '/', c);
      Text.SegmentsGrow(Squeeze(path[..last]), '/', c);
      if last > 0 && c == '/' && path[last - 1] == '/' { EndsInNothing(path[..last]); }
    }
  }

  lemma EndsInNothing(path: string)
    requires path != "" && path[|path| - 1] == '/'
    ensures var parts := Text.Segments(path, '/'); parts[|parts| - 1] == ""
  {
    Text.SegmentsGrow(path[..|path| - 1], '/', '/');
    assert path == path[..|path| - 1] + ['/'];
  }

  lemma {:induction false} DroppedNames(path: string)
    ensures Names(DropSlashes(path)) == Names(path)
  {
    hide Text.Segments;
    if |path| > 1 && path[|path| - 1] == '/' {
      var before := path[..|path| - 1];
      DroppedNames(before);
      Text.SegmentsGrow(before, '/', '/');
      assert path == before + ['/'];
      var parts := Text.Segments(before, '/');
      assert (parts + [""])[..|parts|] == parts;
    }
  }

  /** Normalizing keeps the names along a path. */
  lemma NormalizeKeepsNames(path: string)
    ensures Names(Normalize(path)) == Names(path)
  {
    SqueezedNames(path);
    DroppedNames(Squeeze(path));
  }

  /** Below, for normal paths: the same, or a longer path that goes on with a slash. */
  predicate Beneath(a: string, b: string) {
    b == "/" || a == b || (|a| > |b| && a[..|b|] == b && a[|b|] == '/')
  }

  predicate IsUnder(candidate: string, ancestor: string) {
    Beneath(Normalize(candidate), Normalize(ancestor))
  }

  lemma {:induction false} GoesOnIff(a: string, b: string)
    ensures a == b || (|a| > |b| && a[..|b|] == b && a[|b|] == '/') <==>
            Text.Segments(b, '/') <= Text.Segments(a, '/')
  {
    hide Text.Segments;
    if b == "" {
      NoSegments(a);
      if a != "" { Text.SegmentsFront(a[1..], '/', a[0]); assert a == [a[0]] + a[1..]; }
    } else if a == "" {
      NoSegments(a);
      Text.SegmentsFront(b[1..], '/', b[0]);
      assert b == [b[0]] + b[1..];
    } else {
      GoesOnIff(a[1..], b[1..]);
      Text.SegmentsFront(a[1..], '/', a[0]);
      Text.SegmentsFront(b[1..], '/', b[0]);
      assert a == [a[0]] + a[1..] && b == [b[0]] + b[1..];
      FrontPrefix(a[0], Text.Segments(a[1..], '/'), b[0], Text.Segments(b[1..], '/'));
      assert a == b <==> a[0] == b[0] && a[1..] == b[1..];
      if |a| > |b| {
        assert a[1..][..|b| - 1] == a[..|b|][1..] && a[1..][|b| - 1] == a[|b|];
        assert a[..|b|] == b <==> a[0] == b[0] && a[1..][..|b| - 1] == b[1..] by {
          assert a[..|b|] == [a[0]] + a[..|b|][1..];
        }
      }
    }
  }

  lemma NoSegments(path: string)
    ensures Text.Segments("", '/') == [""]
    ensures path == "" ==> Text.Segments(path, '/') == [""]
  {
  }

  lemma FrontPrefix(c: char, xs: seq<string>, d: char, ys: seq<string>)
    requires xs != [] && ys != []
    ensures var a := if c == '/' then [""] + xs else [[c] + xs[0]] + xs[1..];
            var b := if d == '/' then [""] + ys else [[d] + ys[0]] + ys[1..];
            b <= a <==> c == d && ys <= xs
  {
    var a := if c == '/' then [""] + xs else [[c] + xs[0]] + xs[1..];
    var b := if d == '/' then [""] + ys else [[d] + ys[0]] + ys[1..];
    if c == '/' && d == '/' {
      assert |ys| <= |xs| ==> a[..|b|] == [""] + xs[..|ys|];
      assert b[1..] == ys && |ys| <= |xs| ==> a[..|b|][1..] == xs[..|ys|];
    } else if c != '/' && d != '/' && |ys| <= |xs| {
      assert a[..|b|] == [[c] + xs[0]] + xs[..|ys|][1..];
      assert xs[..|ys|] == [xs[0]] + xs[..|ys|][1..] && ys == [ys[0]] + ys[1..];
      assert [c] + xs[0] == [d] + ys[0] <==> c == d && xs[0] == ys[0] by {
        assert ([c] + xs[0])[0] == c && ([d] + ys[0])[0] == d;
        assert ([c] + xs[0])[1..] == xs[0] && ([d] + ys[0])[1..] == ys[0];
      }
      assert b == a[..|b|] ==> b[0] == a[..|b|][0] && b[1..] == a[..|b|][1..];
    }
  }

  /** Below means: below the root, or the segments between the slashes go on from those of the path above. */
  lemma BeneathIff(a: string, b: string)
    ensures Beneath(a, b) <==> b == "/" || Text.Segments(b, '/') <= Text.Segments(a, '/')
  {
    GoesOnIff(a, b);
  }

  lemma BeneathTransitive(a: string, b: string, c: string)
    requires Beneath(a, b) && Beneath(b, c) && Normal(a) && Normal(b) && Normal(c) && c != "" && b != ""
    ensures Beneath(a, c)
  {
    if c != "/" && b != c && a != b && b != "/" {
      assert a[..|c|] == a[..|b|][..|c|] == b[..|c|];
      assert a[|c|] == a[..|b|][|c|];
    }
  }

  /** The paths above a path lie above one another. */
  lemma BeneathLinear(a: string, b: string, c: string)
    requires Beneath(a, b) && Beneath(a, c)
    ensures Beneath(b, c) || Beneath(c, b)
  {
    if b != "/" && c != "/" && a != b && a != c {
      if |b| > |c| {
        assert b[..|c|] == a[..|b|][..|c|] == c && b[|c|] == a[|c|];
      } else if |b| < |c| {
        assert c[..|b|] == a[..|c|][..|b|] == b && c[|b|] == a[|b|];
      } else {
        assert b == c;
      }
    }
  }

  // ---------------------------------------------------------------- a list of paths

  function Clean(path: string): string {
    Normalize(Trim(path))
  }

  /** The cleaned paths, each where it first appears, without empty ones. */
  function Cleaned(paths: seq<string>): seq<string> {
    if paths == [] then []
    else
      var before := Cleaned(paths[..|paths| - 1]);
      var clean := Clean(paths[|paths| - 1]);
      if clean == "" || clean in before then before else before + [clean]
  }

  /** No other of these paths lies above it. */
  predicate Topmost(path: string, all: seq<string>) {
    forall q | q in all && q != path :: !Beneath(path, q)
  }

  function Tops(paths: seq<string>, all: seq<string>): seq<string> {
    if paths == [] then []
    else
      var before := Tops(paths[..|paths| - 1], all);
      if Topmost(paths[|paths| - 1], all) then before + [paths[|paths| - 1]] else before
  }

  /** The cleaned paths that lie below no other, in the order of their first appearance. */
  function Collapsed(paths: seq<string>): seq<string> {
    Tops(Cleaned(paths), Cleaned(paths))
  }

  predicate Distinct(paths: seq<string>) {
    forall i, j | 0 <= i < j < |paths| :: paths[i] != paths[j]
  }

  predicate ByLength(paths: seq<string>) {
    forall i, j | 0 <= i < j < |paths| :: |paths[i]| <= |paths[j]|
  }

  /** What every list of cleaned paths is like. */
  predicate AllClean(paths: seq<string>) {
    forall path | path in paths :: path != "" && Normal(path)
  }

  lemma {:induction false} CleanedIsClean(paths: seq<string>)
    ensures AllClean(Cleaned(paths)) && Distinct(Cleaned(paths))
    ensures forall path | path in paths :: Clean(path) == "" || Clean(path) in Cleaned(paths)
    ensures forall clean | clean in Cleaned(paths) :: exists i :: 0 <= i < |paths| && Clean(paths[i]) == clean
  {
    hide Clean, AllClean, Distinct, Cleaned;
    CleanedAreNormal(paths);
    forall clean ensures clean in Cleaned(paths) <==>
                           clean != "" && exists i :: 0 <= i < |paths| && Clean(paths[i]) == clean
    {
      CleanedHolds(paths, clean);
    }
    forall path | path in paths && Clean(path) != "" ensures Clean(path) in Cleaned(paths) {
      var i :| 0 <= i < |paths| && paths[i] == path;
      assert Clean(paths[i]) == Clean(path);
    }
  }

  lemma {:induction false} CleanedAreNormal(paths: seq<string>)
    ensures AllClean(Cleaned(paths)) && Distinct(Cleaned(paths))
  {
    hide Normal, Normalize, Trim;
    if paths != [] {
      var before := paths[..|paths| - 1];
      CleanedAreNormal(before);
      NormalizeIsNormal(Trim(paths[|paths| - 1]));
    }
  }

  lemma {:induction false} CleanedHolds(paths: seq<string>, clean: string)
    ensures clean in Cleaned(paths) <==> clean != "" && exists i :: 0 <= i < |paths| && Clean(paths[i]) == clean
  {
    hide Clean;
    if paths != [] {
      var last := |paths| - 1;
      var before := paths[..last];
      CleanedHolds(before, clean);
      if exists i :: 0 <= i < |paths| && Clean(paths[i]) == clean && i < last {
        var i :| 0 <= i < |paths| && Clean(paths[i]) == clean && i < last;
        assert before[i] == paths[i];
      }
      if exists i :: 0 <= i < |before| && Clean(before[i]) == clean {
        var i :| 0 <= i < |before| && Clean(before[i]) == clean;
        assert Clean(paths[i]) == clean;
      }
    }
  }

  /** Sorting by length settles which of two paths comes first wherever one lies above the other, except
      between the root and a relative path of one character. */
  predicate Settled(all: seq<string>) {
    "/" in all ==> forall path | path in all && |path| == 1 :: path == "/"
  }

  lemma AboveIsShorter(path: string, above: string, all: seq<string>)
    requires Settled(all) && path in all && above in all && Beneath(path, above) && path != above && path != ""
    ensures |above| < |path|
  {
  }

  /** Above every path there is one that lies below no other. */
  lemma {:induction false} TopAbove(path: string, all: seq<string>) returns (top: string)
    requires AllClean(all) && Settled(all) && path in all
    ensures top in all && Topmost(top, all) && Beneath(path, top)
    ensures top == path || |top| < |path|
    decreases |path|
  {
    if Topmost(path, all) {
      top := path;
    } else {
      var q :| q in all && q != path && Beneath(path, q);
      AboveIsShorter(path, q, all);
      top := TopAbove(q, all);
      BeneathTransitive(path, q, top);
    }
  }

  lemma {:induction false} TopsAre(paths: seq<string>, all: seq<string>)
    ensures forall path :: path in Tops(paths, all) <==> path in paths && Topmost(path, all)
  {
    if paths != [] {
      var before := paths[..|paths| - 1];
      TopsAre(before, all);
      assert paths == before + [paths[|paths| - 1]];
    }
  }

  /** The result: normalized inputs, none below another, and every input below exactly one of them. */
  lemma CollapsedCovers(paths: seq<string>)
    requires Settled(Cleaned(paths))
    ensures forall r | r in Collapsed(paths) :: exists i :: 0 <= i < |paths| && Clean(paths[i]) == r
    ensures forall r, q | r in Collapsed(paths) && q in Collapsed(paths) && r != q :: !Beneath(r, q)
    ensures forall path | path in paths && Clean(path) != "" ::
              exists r :: r in Collapsed(paths) && Beneath(Clean(path), r)
    ensures forall path, r, q | path in paths && r in Collapsed(paths) && q in Collapsed(paths) &&
                                Beneath(Clean(path), r) && Beneath(Clean(path), q) :: r == q
  {
    var all := Cleaned(paths);
    CleanedIsClean(paths);
    TopsAre(all, all);
    forall path | path in paths && Clean(path) != ""
      ensures exists r :: r in Collapsed(paths) && Beneath(Clean(path), r)
    {
      var top := TopAbove(Clean(path), all);
      assert top in Collapsed(paths);
    }
    forall path, r, q | path in paths && r in Collapsed(paths) && q in Collapsed(paths) &&
                        Beneath(Clean(path), r) && Beneath(Clean(path), q)
      ensures r == q
    {
      BeneathLinear(Clean(path), r, q);
    }
  }

  /** Inputs that are absolute are settled. */
  lemma AbsoluteIsSettled(paths: seq<string>)
    requires forall path | path in paths :: Trim(path) == "" || Trim(path)[0] == '/'
    ensures Settled(Cleaned(paths))
  {
    CleanedIsClean(paths);
    forall clean | clean in Cleaned(paths) && |clean| == 1 ensures clean == "/" {
      var i :| 0 <= i < |paths| && Clean(paths[i]) == clean;
      NormalizeIsNormal(Trim(paths[i]));
      assert clean[0] == '/';
    }
  }

  /** For normal paths normalizing first, as the program does, makes no difference. */
  lemma UnderIsBeneath(a: string, b: string)
    requires Normal(a) && Normal(b)
    ensures IsUnder(a, b) <==> Beneath(a, b)
  {
    NormalizeIsNormal(a);
    NormalizeIsNormal(b);
  }

  // ---------------------------------------------------------------- the algorithm

  lemma Inserted(sorted: seq<string>, k: nat, path: string)
    requires ByLength(sorted) && k <= |sorted|
    requires forall j | 0 <= j < k :: |sorted[j]| <= |path|
    requires k < |sorted| ==> |path| < |sorted[k]|
    ensures var r := sorted[..k] + [path] + sorted[k..];
            multiset(r) == multiset(sorted) + multiset{path} && ByLength(r)
  {
    hide ByLength;
    assert sorted == sorted[..k] + sorted[k..];
    InsertedOrdered(sorted, k, path);
  }

  lemma InsertedOrdered(sorted: seq<string>, k: nat, path: string)
    requires ByLength(sorted) && k <= |sorted|
    requires forall j | 0 <= j < k :: |sorted[j]| <= |path|
    requires k < |sorted| ==> |path| < |sorted[k]|
    ensures ByLength(sorted[..k] + [path] + sorted[k..])
  {
    var r := sorted[..k] + [path] + sorted[k..];
    forall i, j | 0 <= i < j < |r| ensures |r[i]| <= |r[j]| {
      assert r[i] == if i < k then sorted[i] else if i == k then path else sorted[i - 1];
      assert r[j] == if j < k then sorted[j] else if j == k then path else sorted[j - 1];
      if k < |sorted| && k < j { assert |sorted[k]| <= |sorted[j - 1]|; }
    }
  }

  /** Any sort by length will do: nothing is said about paths of equal length. */
  method SortByLength(paths: seq<string>) returns (sorted: seq<string>)
    ensures multiset(sorted) == multiset(paths) && ByLength(sorted)
  {
    hide ByLength;
    sorted := [];
    NothingToSort();
    for i := 0 to |paths|
      invariant multiset(sorted) == multiset(paths[..i]) && ByLength(sorted)
    {
      var k := 0;
      while k < |sorted| && |sorted[k]| <= |paths[i]|
        invariant 0 <= k <= |sorted|
        invariant forall j | 0 <= j < k :: |sorted[j]| <= |paths[i]|
      {
        k := k + 1;
      }
      Inserted(sorted, k, paths[i]);
      assert paths[..i + 1] == paths[..i] + [paths[i]];
      sorted := sorted[..k] + [paths[i]] + sorted[k..];
    }
    assert paths[..|paths|] == paths;
  }

  lemma NothingToSort()
    ensures ByLength([])
  {
  }

  predicate Covered(path: string, kept: seq<string>) {
    exists existing :: existing in kept && IsUnder(path, existing)
  }

  /** Keeps a path unless one kept before lies above it. */
  function Kept(sorted: seq<string>): seq<string> {
    if sorted == [] then []
    else
      var before := Kept(sorted[..|sorted| - 1]);
      if Covered(sorted[|sorted| - 1], before) then before else before + [sorted[|sorted| - 1]]
  }

  /** In whatever order the sort leaves paths of equal length, what is kept is what lies below no other. */
  lemma {:induction false} KeptAreTops(all: seq<string>, k: nat)
    requires AllClean(all) && Distinct(all) && ByLength(all) && Settled(all) && k <= |all|
    ensures forall path :: path in Kept(all[..k]) <==> path in all[..k] && Topmost(path, all)
  {
    if k > 0 {
      var last := all[k - 1];
      var before := Kept(all[..k - 1]);
      KeptAreTops(all, k - 1);
      assert all[..k][..k - 1] == all[..k - 1] && all[..k] == all[..k - 1] + [last];
      if Topmost(last, all) {
        forall existing | existing in before ensures !IsUnder(last, existing) {
          UnderIsBeneath(last, existing);
        }
      } else {
        var top := TopAbove(last, all);
        var j :| 0 <= j < |all| && all[j] == top;
        assert j < k - 1;
        assert all[..k - 1][j] == top;
        UnderIsBeneath(last, top);
        assert Covered(last, before);
      }
    }
  }

  /** The kept paths in the order of the inputs. */
  function Ordered(paths: seq<string>, kept: seq<string>): seq<string> {
    if paths == [] then []
    else
      var before := Ordered(paths[..|paths| - 1], kept);
      var clean := Clean(paths[|paths| - 1]);
      if clean in kept && clean !in before then before + [clean] else before
  }

  lemma {:induction false} OrderedIs(paths: seq<string>, kept: seq<string>, all: seq<string>)
    requires "" !in kept
    requires forall clean | clean in Cleaned(paths) :: clean in kept <==> Topmost(clean, all)
    ensures Ordered(paths, kept) == Tops(Cleaned(paths), all)
  {
    if paths != [] {
      var before := paths[..|paths| - 1];
      var clean := Clean(paths[|paths| - 1]);
      assert forall c | c in Cleaned(before) :: c in Cleaned(paths);
      OrderedIs(before, kept, all);
      TopsAre(Cleaned(before), all);
      if clean != "" && clean !in Cleaned(before) {
        assert Cleaned(paths) == Cleaned(before) + [clean] && clean in Cleaned(paths);
        assert Cleaned(paths)[..|Cleaned(paths)| - 1] == Cleaned(before);
      }
    }
  }

  lemma SameMembers(a: seq<string>, b: seq<string>)
    requires multiset(a) == multiset(b)
    ensures forall path :: path in a <==> path in b
    ensures Distinct(a) <==> Distinct(b)
  {
    forall path ensures path in a <==> path in b { assert path in multiset(a) <==> path in multiset(b); }
    DistinctIff(a);
    DistinctIff(b);
  }

  lemma {:induction false} DistinctIff(a: seq<string>)
    ensures Distinct(a) <==> forall path :: multiset(a)[path] <= 1
  {
    if a != [] {
      var before := a[..|a| - 1];
      var last := a[|a| - 1];
      DistinctIff(before);
      assert multiset(a) == multiset(before) + multiset{last} by { assert a == before + [last]; }
      assert last in before <==> multiset(before)[last] >= 1;
      assert forall path :: multiset(a)[path] == multiset(before)[path] + if path == last then 1 else 0;
      if Distinct(before) && last !in before {
        forall i, j | 0 <= i < j < |a| ensures a[i] != a[j] {
          if j < |a| - 1 { assert before[i] != before[j]; } else { assert a[i] == before[i]; }
        }
      }
      if Distinct(a) {
        forall i | 0 <= i < |before| ensures before[i] != last { assert a[i] != a[|a| - 1]; }
      }
    }
  }

  method CleanAll(paths: seq<string>) returns (normalized: seq<string>)
    ensures normalized == Cleaned(paths)
  {
    hide Trim, Normalize;
    normalized := [];
    for i := 0 to |paths|
      invariant normalized == Cleaned(paths[..i])
    {
      assert paths[..i + 1][..i] == paths[..i];
      var clean := NormalizePath(Trim(paths[i]));
      if clean != "" && clean !in normalized { normalized := normalized + [clean]; }
    }
    assert paths[..|paths|] == paths;
  }

  method KeepTops(sorted: seq<string>) returns (kept: seq<string>)
    ensures kept == Kept(sorted)
  {
    hide IsUnder;
    kept := [];
    for i := 0 to |sorted|
      invariant kept == Kept(sorted[..i])
    {
      assert sorted[..i + 1][..i] == sorted[..i];
      var covered := false;
      for j := 0 to |kept|
        invariant covered <==> exists k :: 0 <= k < j && IsUnder(sorted[i], kept[k])
      {
        if IsUnder(sorted[i], kept[j]) { covered := true; }
      }
      assert covered <==> Covered(sorted[i], kept);
      if !covered { kept := kept + [sorted[i]]; }
    }
    assert sorted[..|sorted|] == sorted;
  }

  /** The list of the topmost inputs. It does not depend on how the sort orders paths of equal length, except
      where a relative path of one character stands next to the root. */
  method CollapseRedundant(paths: seq<string>) returns (ordered: seq<string>)
    ensures Settled(Cleaned(paths)) ==> ordered == Collapsed(paths)
    ensures exists sorted :: multiset(sorted) == multiset(Cleaned(paths)) && ByLength(sorted) &&
                             ordered == Ordered(paths, Kept(sorted))
  {
    hide Trim, Normalize, Kept, Cleaned, Settled, ByLength, Collapsed;
    var normalized := CleanAll(paths);
    var sorted := SortByLength(normalized);
    var kept := KeepTops(sorted);
    ordered := [];
    for i := 0 to |paths|
      invariant ordered == Ordered(paths[..i], kept)
    {
      assert paths[..i + 1][..i] == paths[..i];
      var clean := NormalizePath(Trim(paths[i]));
      if clean in kept && clean !in ordered { ordered := ordered + [clean]; }
    }
    assert paths[..|paths|] == paths;
    AnySortWillDo(paths, sorted);
  }

  lemma AnySortWillDo(paths: seq<string>, sorted: seq<string>)
    requires multiset(sorted) == multiset(Cleaned(paths)) && ByLength(sorted)
    ensures Settled(Cleaned(paths)) ==> Ordered(paths, Kept(sorted)) == Collapsed(paths)
  {
    hide Kept, Ordered, Cleaned, Tops;
    var all := Cleaned(paths);
    CleanedIsClean(paths);
    SameMembers(sorted, all);
    if Settled(all) {
      KeptAreTops(sorted, |sorted|);
      assert sorted[..|sorted|] == sorted;
      forall path | path in all ensures Topmost(path, sorted) <==> Topmost(path, all) {}
      OrderedIs(paths, Kept(sorted), all);
    }
  }

  /** One of the orders a sort of these paths by length may leave. */
  predicate SortOf(sorted: seq<string>, all: seq<string>) {
    multiset(sorted) == multiset(all) && ByLength(sorted)
  }

  ghost predicate OrderDoesNotMatter(paths: seq<string>) {
    forall s, t | SortOf(s, Cleaned(paths)) && SortOf(t, Cleaned(paths)) ::
      Ordered(paths, Kept(s)) == Ordered(paths, Kept(t))
  }

  /** Whatever the inputs, the order in which the sort leaves paths of equal length makes no difference exactly if
      no other path of one character stands next to the root. */
  lemma SettledIff(paths: seq<string>)
    ensures Settled(Cleaned(paths)) <==> OrderDoesNotMatter(paths)
  {
    hide Kept, Ordered, Cleaned, ByLength, Collapsed;
    var all := Cleaned(paths);
    if Settled(all) {
      forall s, t | SortOf(s, all) && SortOf(t, all) ensures Ordered(paths, Kept(s)) == Ordered(paths, Kept(t)) {
        AnySortWillDo(paths, s);
        AnySortWillDo(paths, t);
      }
    } else {
      var short :| short in all && |short| == 1 && short != "/";
      var s := SortWithFirst(paths, "/");
      var t := SortWithFirst(paths, short);
      RootKeepsNothingElse(s, short);
      FirstIsKept(t);
      CleanedIsClean(paths);
      OrderedHolds(paths, Kept(s), short);
      OrderedHolds(paths, Kept(t), short);
      assert Ordered(paths, Kept(s)) != Ordered(paths, Kept(t));
    }
  }

  /** There is a sort that puts a given path of one character first. */
  lemma SortWithFirst(paths: seq<string>, first: string) returns (sorted: seq<string>)
    requires first in Cleaned(paths) && |first| == 1
    ensures SortOf(sorted, Cleaned(paths)) && sorted != [] && sorted[0] == first
  {
    hide Cleaned, SortOf;
    var t := SortExists(Cleaned(paths));
    CleanedIsClean(paths);
    SameMembers(t, Cleaned(paths)) by { assert SortOf(t, Cleaned(paths)); SortMeans(t, Cleaned(paths)); }
    var i :| 0 <= i < |t| && t[i] == first;
    sorted := ToFront(t, i);
    ToFrontSorts(t, i, Cleaned(paths));
  }

  lemma SortMeans(sorted: seq<string>, all: seq<string>)
    requires SortOf(sorted, all)
    ensures multiset(sorted) == multiset(all)
  {
  }

  function ToFront(t: seq<string>, i: nat): seq<string>
    requires i < |t|
  {
    [t[i]] + (t[..i] + t[i + 1..])
  }

  lemma ToFrontSorts(t: seq<string>, i: nat, all: seq<string>)
    requires SortOf(t, all) && i < |t| && |t[i]| == 1 && forall path | path in t :: path != ""
    ensures SortOf(ToFront(t, i), all)
  {
    hide ByLength;
    assert t == t[..i] + ([t[i]] + t[i + 1..]);
    Without(t, i);
    var rest := t[..i] + t[i + 1..];
    forall k | 0 <= k < |rest| ensures |rest[k]| >= 1 {
      var path := t[if k < i then k else k + 1];
      assert rest[k] == path && path in t && path != "";
    }
    ShortFirst(t[i], rest);
  }

  lemma Without(t: seq<string>, i: nat)
    requires ByLength(t) && i < |t|
    ensures ByLength(t[..i] + t[i + 1..])
  {
  }

  lemma ShortFirst(first: string, rest: seq<string>)
    requires ByLength(rest) && |first| == 1 && forall k | 0 <= k < |rest| :: |rest[k]| >= 1
    ensures ByLength([first] + rest)
  {
    var all := [first] + rest;
    assert forall k | 1 <= k < |all| :: all[k] == rest[k - 1];
  }

  lemma {:induction false} SortExists(paths: seq<string>) returns (sorted: seq<string>)
    ensures SortOf(sorted, paths)
  {
    sorted := [];
    if paths != [] {
      var last := paths[|paths| - 1];
      var before := SortExists(paths[..|paths| - 1]);
      var k := 0;
      while k < |before| && |before[k]| <= |last|
        invariant 0 <= k <= |before|
        invariant forall j | 0 <= j < k :: |before[j]| <= |last|
      {
        k := k + 1;
      }
      Inserted(before, k, last);
      sorted := before[..k] + [last] + before[k..];
      assert paths == paths[..|paths| - 1] + [last];
    }
  }

  /** Everything lies below the root. */
  lemma {:induction false} RootKeepsNothingElse(sorted: seq<string>, path: string)
    requires sorted != [] && sorted[0] == "/" && path != "/"
    ensures path !in Kept(sorted) && "/" in Kept(sorted)
  {
    var before := sorted[..|sorted| - 1];
    if before != [] {
      RootKeepsNothingElse(before, path);
      UnderRoot(sorted[|sorted| - 1]);
      assert Covered(sorted[|sorted| - 1], Kept(before));
    }
  }

  lemma UnderRoot(path: string)
    ensures IsUnder(path, "/")
  {
    assert Normal("/");
    NormalizeIsNormal("/");
  }

  lemma {:induction false} FirstIsKept(sorted: seq<string>)
    requires sorted != []
    ensures sorted[0] in Kept(sorted)
  {
    hide IsUnder;
    var before := sorted[..|sorted| - 1];
    if before != [] { FirstIsKept(before); }
  }

  lemma {:induction false} OrderedHolds(paths: seq<string>, kept: seq<string>, clean: string)
    ensures clean in Ordered(paths, kept) <==> clean in kept && exists i :: 0 <= i < |paths| && Clean(paths[i]) == clean
  {
    hide Clean;
    if paths != [] {
      var last := |paths| - 1;
      OrderedHolds(paths[..last], kept, clean);
      if clean in kept && Clean(paths[last]) != clean && exists i :: 0 <= i < |paths| && Clean(paths[i]) == clean {
        var i :| 0 <= i < |paths| && Clean(paths[i]) == clean;
        assert paths[..last][i] == paths[i];
      }
      if clean in Ordered(paths[..last], kept) {
        var i :| 0 <= i < |paths[..last]| && Clean(paths[..last][i]) == clean;
        assert Clean(paths[i]) == clean;
      }
    }
  }
}
