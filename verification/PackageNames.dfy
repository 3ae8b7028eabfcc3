/** Package names and the names of the archives made from them. */
module PackageNames {
  import Text

  predicate Letter(c: char) {
    'A' <= c <= 'Z' || 'a' <= c <= 'z'
  }

  predicate Alphanumeric(c: char) {
    Letter(c) || '0' <= c <= '9'
  }

  /** Two or more parts of letters, digits and underscores, the first starting with a letter, separated by
      dots; at most 255 characters. */
  predicate IsValidPackageName(name: string) {
    && 0 < |name| <= 255 && Letter(name[0])
    && (forall i | 0 <= i < |name| :: Alphanumeric(name[i]) || name[i] == '_' || name[i] == '.')
    && '.' in name
    && (forall i | 0 <= i < |name| && name[i] == '.' :: i + 1 < |name| && name[i + 1] != '.')
  }

  predicate IsPart(part: string) {
    part != "" && forall c | c in part :: 'A' <= c <= 'Z' || 'a' <= c <= 'z' || '0' <= c <= '9' || c == '_'
  }

  predicate Characters(name: string) {
    forall i | 0 <= i < |name| :: Alphanumeric(name[i]) || name[i] == '_' || name[i] == '.'
  }

  predicate DotsApart(name: string) {
    forall i | 0 <= i < |name| && name[i] == '.' :: i + 1 < |name| && name[i + 1] != '.'
  }

  predicate PartsOrNothing(parts: seq<string>) {
    forall i | 0 <= i < |parts| :: parts[i] == "" || IsPart(parts[i])
  }

  predicate SomethingAfterDots(parts: seq<string>) {
    forall i | 1 <= i < |parts| :: parts[i] != ""
  }

  lemma FirstCharacter(name: string)
    requires name != ""
    ensures Characters(name) <==>
            (Alphanumeric(name[0]) || name[0] == '_' || name[0] == '.') && Characters(name[1..])
    ensures DotsApart(name) <==>
            (name[0] == '.' ==> |name| > 1 && name[1] != '.') && DotsApart(name[1..])
    ensures '.' in name <==> name[0] == '.' || '.' in name[1..]
  {
    var rest := name[1..];
    assert name == [name[0]] + rest;
    assert Characters(name) ==> Characters(rest) by {
      assert forall i | 0 <= i < |rest| :: rest[i] == name[i + 1];
    }
    if DotsApart(rest) && (name[0] == '.' ==> |name| > 1 && name[1] != '.') {
      forall i | 0 <= i < |name| && name[i] == '.' ensures i + 1 < |name| && name[i + 1] != '.' {
        if i > 0 { assert rest[i - 1] == '.'; }
      }
    }
    if DotsApart(name) {
      forall i | 0 <= i < |rest| && rest[i] == '.' ensures i + 1 < |rest| && rest[i + 1] != '.' {
        assert name[i + 1] == '.';
      }
    }
  }

  lemma FirstPart(c: char, rest: seq<string>)
    requires rest != []
    ensures PartsOrNothing([""] + rest) <==> PartsOrNothing(rest)
    ensures SomethingAfterDots([""] + rest) <==> rest[0] != "" && SomethingAfterDots(rest)
    ensures var longer := [[c] + rest[0]] + rest[1..];
            && (c != '.' ==> (PartsOrNothing(longer) <==> (Alphanumeric(c) || c == '_') && PartsOrNothing(rest)))
            && (SomethingAfterDots(longer) <==> SomethingAfterDots(rest))
  {
    var longer := [[c] + rest[0]] + rest[1..];
    assert forall i | 1 <= i < |rest| :: longer[i] == rest[i];
    assert longer[0] == [c] + rest[0] && c in longer[0];
    assert forall d | d in rest[0] :: d in longer[0];
    if SomethingAfterDots([""] + rest) {
      assert ([""] + rest)[1] == rest[0];
      assert forall i | 1 <= i < |rest| :: rest[i] == ([""] + rest)[i + 1];
    }
    if PartsOrNothing([""] + rest) {
      assert forall i | 0 <= i < |rest| :: rest[i] == ([""] + rest)[i + 1];
    }
    if PartsOrNothing(longer) && c != '.' {
      forall i | 0 <= i < |rest| ensures rest[i] == "" || IsPart(rest[i]) { assert i > 0 ==> longer[i] == rest[i]; }
    }
  }

  lemma {:induction false} PartsOfName(name: string)
    ensures var parts := Text.Segments(name, '.');
            && (|parts| >= 2 <==> '.' in name)
            && (Characters(name) <==> PartsOrNothing(parts))
            && (DotsApart(name) <==> SomethingAfterDots(parts))
            && (parts[0] == "" <==> name == "" || name[0] == '.')
            && (parts[0] != "" ==> parts[0][0] == name[0])
  {
    hide Characters, DotsApart, PartsOrNothing, SomethingAfterDots;
    if name == "" {
      EmptyName();
    } else {
      PartsOfName(name[1..]);
      FirstCharacter(name);
      FirstPart(name[0], Text.Segments(name[1..], '.'));
    }
  }

  lemma PartIsSome(part: string)
    ensures IsPart(part) ==> part != ""
  {
  }

  lemma EmptyName()
    ensures Characters("") && DotsApart("") && PartsOrNothing([""]) && SomethingAfterDots([""])
  {
  }

  /** The names are those of the expression `^[A-Za-z][A-Za-z0-9_]*(\.[A-Za-z0-9_]+)+$`, up to a length of 255. */
  lemma ValidIff(name: string)
    ensures var parts := Text.Segments(name, '.');
            IsValidPackageName(name) <==>
            && |name| <= 255 && |parts| >= 2 && (forall i | 0 <= i < |parts| :: IsPart(parts[i]))
            && ('A' <= parts[0][0] <= 'Z' || 'a' <= parts[0][0] <= 'z')
  {
    hide IsPart, Text.Segments;
    var parts := Text.Segments(name, '.');
    PartsOfName(name);
    forall i | 0 <= i < |parts| ensures IsPart(parts[i]) ==> parts[i] != "" { PartIsSome(parts[i]); }
  }

  function SafeChar(c: char): char {
    if Alphanumeric(c) || c == '.' || c == '_' || c == '-' then c else '_'
  }

  /** Every character that is not plain becomes an underscore. */
  function SanitizeForFilename(name: string): (r: string)
  {
    if name == "" then "_" else seq(|name|, i requires 0 <= i < |name| => SafeChar(name[i]))
  }

  method Sanitize(name: string) returns (r: string)
    ensures r == SanitizeForFilename(name)
    ensures name == "" ==> r == "_"
    ensures name != "" ==> |r| == |name|
    ensures forall k | 0 <= k < |name| ::
              var c := name[k];
              r[k] == if 'A' <= c <= 'Z' || 'a' <= c <= 'z' || '0' <= c <= '9' || c == '.' || c == '_' || c == '-'
                      then c else '_'
  {
    r := "";
    for i := 0 to |name|
      invariant |r| == i && forall k | 0 <= k < i :: r[k] == SafeChar(name[k])
    {
      r := r + [SafeChar(name[i])];
    }
    if r == "" { r := "_"; }
  }

  /** Sanitizing leaves a valid package name alone. */
  lemma ValidIsSafe(name: string)
    requires IsValidPackageName(name)
    ensures SanitizeForFilename(name) == name
  {
    assert forall i | 0 <= i < |name| :: SafeChar(name[i]) == name[i];
  }

  function CePath(name: string): string {
    "data/" + (SanitizeForFilename(name) + ".tar.gz")
  }

  function DePath(name: string): string {
    "data/" + (SanitizeForFilename(name) + ".de.tar.gz")
  }

  lemma Cancel(prefix: string, a: string, b: string, suffix: string)
    ensures prefix + (a + suffix) == prefix + (b + suffix) <==> a == b
  {
    if prefix + (a + suffix) == prefix + (b + suffix) {
      assert (prefix + (a + suffix))[|prefix|..] == a + suffix;
      assert (prefix + (b + suffix))[|prefix|..] == b + suffix;
      assert a + suffix == b + suffix;
      assert |a| == |b|;
      assert (a + suffix)[..|a|] == a && (b + suffix)[..|b|] == b;
    }
  }

  /** Two archives of one backup share a file name exactly if they are the same archive, or one is the
      credential-encrypted archive of a package named like another plus ".de". */
  lemma ArchivesShareAName(p: string, q: string)
    requires IsValidPackageName(p) && IsValidPackageName(q)
    ensures CePath(p) == CePath(q) <==> p == q
    ensures DePath(p) == DePath(q) <==> p == q
    ensures CePath(p) == DePath(q) <==> p == q + ".de"
  {
    ValidIsSafe(p);
    ValidIsSafe(q);
    Cancel("data/", p, q, ".tar.gz");
    Cancel("data/", p, q, ".de.tar.gz");
    Cancel("data/", p, q + ".de", ".tar.gz");
    assert q + ".de.tar.gz" == (q + ".de") + ".tar.gz";
  }

  lemma ArchivesInData(name: string)
    ensures "data/" <= CePath(name) && "data/" <= DePath(name)
  {
  }
}
