/** One level of an archive's folder tree, as the file browser shows it. */
module TarListing {
  import opened Bytes
  import opened TarArchive
  import TarSafety

  datatype Child = Child(name: bytes, path: bytes, isDirectory: bool, size: nat, mtime: int)

  predicate Under(e: Entry, prefix: bytes) { |e.name| > |prefix| && e.name[..|prefix|] == prefix }

  /** What is left of a name below the prefix. */
  function Rest(e: Entry, prefix: bytes): bytes
    requires Under(e, prefix)
  {
    e.name[|prefix|..]
  }

  function Segment(e: Entry, prefix: bytes): bytes
    requires Under(e, prefix)
  {
    Rest(e, prefix)[..Find(Rest(e, prefix), 0x2F, 0)]
  }

  /** The entry makes its first segment a folder: it lies deeper, or is a folder itself. */
  predicate InFolder(e: Entry, prefix: bytes)
    requires Under(e, prefix)
  {
    Find(Rest(e, prefix), 0x2F, 0) < |Rest(e, prefix)| || e.kind == Directory
  }

  function Max(a: int, b: int): int { if a < b then b else a }

  function Credit(children: map<bytes, Child>, e: Entry, prefix: bytes): map<bytes, Child> {
    if !Under(e, prefix) then children else
      var name := Segment(e, prefix);
      var was := if name in children then children[name] else Child(name, prefix + name, false, 0, 0);
      children[name := Child(name, prefix + name, was.isDirectory || InFolder(e, prefix),
                             if InFolder(e, prefix) then (was.size + e.size) % U64 else e.size,
                             Max(was.mtime, e.mtime))]
  }

  function Children(entries: seq<Entry>, prefix: bytes): map<bytes, Child> {
    if entries == [] then map[]
    else Credit(Children(entries[..|entries| - 1], prefix), entries[|entries| - 1], prefix)
  }

  // ---------------------------------------------------------------- the order shown

  /** `std::string`'s order: bytes compared as unsigned, a proper prefix first. */
  predicate LexLess(a: bytes, b: bytes) {
    b != [] && (a == [] || a[0] < b[0] || (a[0] == b[0] && LexLess(a[1..], b[1..])))
  }

  lemma {:induction false} LexTotal(a: bytes, b: bytes)
    ensures LexLess(a, b) || LexLess(b, a) || a == b
    ensures !(LexLess(a, b) && LexLess(b, a)) && !LexLess(a, a)
  {
    if a != [] {
      LexTotal(a[1..], a[1..]);
      if b != [] {
        LexTotal(a[1..], b[1..]);
        if a[0] == b[0] && a[1..] == b[1..] { assert a == [a[0]] + a[1..] && b == [b[0]] + b[1..]; }
      }
    }
  }

  lemma {:induction false} LexTransitive(a: bytes, b: bytes, c: bytes)
    requires LexLess(a, b) && LexLess(b, c)
    ensures LexLess(a, c)
  {
    if a != [] && a[0] == b[0] && b[0] == c[0] { LexTransitive(a[1..], b[1..], c[1..]); }
  }

  /** The order is decided where two strings first differ; there the smaller has the smaller byte, or ends. */
  lemma {:induction false} LexLessIff(a: bytes, b: bytes)
    ensures LexLess(a, b) <==>
            exists k: nat | k <= |a| && k < |b| :: a[..k] == b[..k] && (k == |a| || a[k] < b[k])
    decreases |a|
  {
    if a != [] && b != [] && a[0] == b[0] {
      LexLessIff(a[1..], b[1..]);
      if LexLess(a, b) {
        var k: nat :| k <= |a| - 1 && k < |b| - 1 && a[1..][..k] == b[1..][..k] &&
                      (k == |a| - 1 || a[k + 1] < b[k + 1]);
        assert a[..k + 1] == [a[0]] + a[1..][..k] && b[..k + 1] == [b[0]] + b[1..][..k];
      }
      if k: nat :| k <= |a| && k < |b| && a[..k] == b[..k] && (k == |a| || a[k] < b[k]) {
        assert k > 0;
        assert a[1..][..k - 1] == a[..k][1..] && b[1..][..k - 1] == b[..k][1..];
      }
    } else if LexLess(a, b) {
      assert a[..0] == b[..0];
    }
  }

  /** Folders first, then by name. */
  predicate ShownBefore(a: Child, b: Child) {
    if a.isDirectory != b.isDirectory then a.isDirectory else LexLess(a.name, b.name)
  }

  /** The rows are the children, each once, in the order shown. There is only one such list. */
  predicate Shows(rows: seq<Child>, children: map<bytes, Child>) {
    && (forall i :: 0 <= i < |rows| ==> rows[i].name in children && children[rows[i].name] == rows[i])
    && (forall name :: name in children ==> children[name] in rows && children[name].name == name)
    && (forall i, j :: 0 <= i < j < |rows| ==> ShownBefore(rows[i], rows[j]))
  }

  lemma ShownTransitive(a: Child, b: Child, c: Child)
    requires ShownBefore(a, b) && ShownBefore(b, c)
    ensures ShownBefore(a, c)
  {
    if a.isDirectory == b.isDirectory == c.isDirectory { LexTransitive(a.name, b.name, c.name); }
  }

  /** Puts a child in its place among ordered rows. */
  method InsertRow(rows: seq<Child>, child: Child) returns (longer: seq<Child>)
    requires forall i, j :: 0 <= i < j < |rows| ==> ShownBefore(rows[i], rows[j])
    requires forall i :: 0 <= i < |rows| ==> rows[i].name != child.name
    ensures exists at :: 0 <= at <= |rows| && longer == rows[..at] + [child] + rows[at..]
    ensures forall i, j :: 0 <= i < j < |longer| ==> ShownBefore(longer[i], longer[j])
  {
    var at := 0;
    while at < |rows| && ShownBefore(rows[at], child)
      invariant 0 <= at <= |rows|
      invariant forall i :: 0 <= i < at ==> ShownBefore(rows[i], child)
    {
      at := at + 1;
    }
    if at < |rows| {
      LexTotal(rows[at].name, child.name);
      assert ShownBefore(child, rows[at]);
      forall j | at < j < |rows| ensures ShownBefore(child, rows[j]) { ShownTransitive(child, rows[at], rows[j]); }
    }
    longer := rows[..at] + [child] + rows[at..];
  }

  method ListChildren(entries: seq<Entry>, prefix: bytes) returns (rows: seq<Child>)
    ensures Shows(rows, Children(entries, prefix))
  {
    hide Children, Shows;
    var children := CollectChildren(entries, prefix);
    ChildrenNamed(entries, prefix);
    rows := SortRows(children);
  }

  method CollectChildren(entries: seq<Entry>, prefix: bytes) returns (children: map<bytes, Child>)
    ensures children == Children(entries, prefix)
  {
    children := map[];
    for i := 0 to |entries|
      invariant children == Children(entries[..i], prefix)
    {
      assert entries[..i + 1][..i] == entries[..i];
      var entry := entries[i];
      if Under(entry, prefix) {
        var rest := entry.name[|prefix|..];
        var slash := Find(rest, 0x2F, 0);
        var name := rest[..slash];
        var child := if name in children then children[name] else Child(name, prefix + name, false, 0, 0);
        child := child.(name := name, path := prefix + name);
        if slash < |rest| || entry.kind == Directory {
          child := child.(isDirectory := true, size := (child.size + entry.size) % U64);
        } else {
          child := child.(size := entry.size);
        }
        children := children[name := child.(mtime := Max(child.mtime, entry.mtime))];
      }
    }
    assert entries[..|entries|] == entries;
  }

  method SortRows(children: map<bytes, Child>) returns (rows: seq<Child>)
    requires forall name :: name in children ==> children[name].name == name
    ensures Shows(rows, children)
  {
    rows := [];
    var left := children.Keys;
    while left != {}
      invariant left <= children.Keys
      invariant forall i :: 0 <= i < |rows| ==>
                  rows[i].name in children && children[rows[i].name] == rows[i] && rows[i].name !in left
      invariant forall name :: name in children && name !in left ==> children[name] in rows
      invariant forall i, j :: 0 <= i < j < |rows| ==> ShownBefore(rows[i], rows[j])
      decreases left
    {
      var name :| name in left;
      ghost var before := rows;
      rows := InsertRow(rows, children[name]);
      assert forall c :: c in rows <==> c in before || c == children[name];
      assert forall i :: 0 <= i < |rows| ==> rows[i] in rows;
      left := left - {name};
    }
  }

  lemma {:induction false} ChildrenNamed(entries: seq<Entry>, prefix: bytes)
    ensures forall name :: name in Children(entries, prefix) ==>
              Children(entries, prefix)[name].name == name && Children(entries, prefix)[name].path == prefix + name
  {
    if entries != [] { ChildrenNamed(entries[..|entries| - 1], prefix); }
  }

  lemma SameFirst(a: seq<Child>, b: seq<Child>, children: map<bytes, Child>)
    requires Shows(a, children) && Shows(b, children) && a != []
    ensures b != [] && b[0] == a[0]
  {
    assert children[a[0].name] in b;
    var k :| 0 <= k < |b| && b[k] == a[0];
    assert children[b[0].name] in a;
    var j :| 0 <= j < |a| && a[j] == b[0];
    LexTotal(a[0].name, b[0].name);
  }

  /** Two lists showing the same children are the same list. */
  lemma {:induction false} ShownOnce(a: seq<Child>, b: seq<Child>, children: map<bytes, Child>)
    requires Shows(a, children) && Shows(b, children)
    ensures a == b
    decreases |a|
  {
    hide Shows, ShownBefore;
    if b != [] { SameFirst(b, a, children); }
    if a != [] {
      SameFirst(a, b, children);
      DropFirst(a, children);
      DropFirst(b, children);
      ShownOnce(a[1..], b[1..], children - {a[0].name});
      assert a == [a[0]] + a[1..] && b == [b[0]] + b[1..];
    }
  }

  lemma DropFirst(rows: seq<Child>, children: map<bytes, Child>)
    requires Shows(rows, children) && rows != []
    ensures Shows(rows[1..], children - {rows[0].name})
  {
    var fewer := children - {rows[0].name};
    forall i | 0 <= i < |rows[1..]| ensures rows[1..][i].name in fewer && fewer[rows[1..][i].name] == rows[1..][i] {
      LexTotal(rows[0].name, rows[0].name);
      assert rows[1..][i] == rows[i + 1] && ShownBefore(rows[0], rows[i + 1]);
    }
    forall name | name in fewer ensures fewer[name] in rows[1..] {
      var k :| 0 <= k < |rows| && rows[k] == children[name];
      assert rows[1..][k - 1] == rows[k];
    }
  }

  // ---------------------------------------------------------------- what a row stands for

  /** The entry lies below the prefix, and there has this name or lies in the folder of this name. */
  predicate Belongs(e: Entry, prefix: bytes, name: bytes) {
    && |e.name| > |prefix|
    && prefix + name <= e.name
    && (e.name == prefix + name || e.name[|prefix + name|] == 0x2F)
  }

  lemma StartsWithBoth(s: bytes, a: bytes, b: bytes)
    requires a + b <= s
    ensures s[..|a|] == a && s[|a|..|a| + |b|] == b
  {
    assert s[..|a|] == s[..|a + b|][..|a|];
    assert s[|a|..|a| + |b|] == s[..|a + b|][|a|..];
  }

  lemma BelongsIff(e: Entry, prefix: bytes, name: bytes)
    ensures Under(e, prefix) && Segment(e, prefix) == name <==> Belongs(e, prefix, name) && 0x2F !in name
    ensures Belongs(e, prefix, name) && 0x2F !in name ==>
              (InFolder(e, prefix) <==> e.name != prefix + name || e.kind == Directory)
  {
    hide Segment, InFolder, Belongs;
    if Under(e, prefix) && Segment(e, prefix) == name { OwnSegment(e, prefix); }
    if Belongs(e, prefix, name) && 0x2F !in name { OwnRow(e, prefix, name); }
  }

  lemma OwnSegment(e: Entry, prefix: bytes)
    requires Under(e, prefix)
    ensures Belongs(e, prefix, Segment(e, prefix)) && 0x2F !in Segment(e, prefix)
  {
    var rest := Rest(e, prefix);
    var slash := Find(rest, 0x2F, 0);
    assert e.name == prefix + rest && rest == rest[..slash] + rest[slash..];
  }

  lemma OwnRow(e: Entry, prefix: bytes, name: bytes)
    requires Belongs(e, prefix, name) && 0x2F !in name
    ensures Under(e, prefix) && Segment(e, prefix) == name
    ensures InFolder(e, prefix) <==> e.name != prefix + name || e.kind == Directory
  {
    StartsWithBoth(e.name, prefix, name);
    var rest := Rest(e, prefix);
    assert rest[..|name|] == name;
    if e.name != prefix + name {
      assert rest[|name|] == 0x2F;
      assert forall i | 0 <= i < |name| :: rest[i] == name[i];
      FindAt(rest, 0x2F, 0, |name|);
    } else {
      assert rest == name;
    }
  }

  /** The row of a name, as what belongs to it has it: a folder or not, and its time, that of the latest (1970 at the
      earliest). */
  ghost predicate RowRight(entries: seq<Entry>, prefix: bytes, name: bytes, row: Child) {
    && row.name == name && row.path == prefix + name
    && (row.isDirectory <==>
          exists e | e in entries :: Belongs(e, prefix, name) && (e.name != prefix + name || e.kind == Directory))
    && row.mtime >= 0
    && (forall e | e in entries && Belongs(e, prefix, name) :: e.mtime <= row.mtime)
    && (row.mtime == 0 || exists e | e in entries :: Belongs(e, prefix, name) && e.mtime == row.mtime)
  }

  /** There is a row for a name exactly if something belongs to it, and the row says what that is. */
  lemma {:induction false} RowsStandFor(entries: seq<Entry>, prefix: bytes, name: bytes)
    ensures name in Children(entries, prefix) <==>
            0x2F !in name && exists e | e in entries :: Belongs(e, prefix, name)
    ensures name in Children(entries, prefix) ==> RowRight(entries, prefix, name, Children(entries, prefix)[name])
    decreases |entries|
  {
    if entries != [] {
      var before, last := entries[..|entries| - 1], entries[|entries| - 1];
      assert entries == before + [last];
      RowsStandFor(before, prefix, name);
      BelongsIff(last, prefix, name);
      hide Under, Segment, InFolder, Belongs;
    }
  }

  // ---------------------------------------------------------------- folder sizes

  /** The data below a prefix. */
  function SizeUnder(entries: seq<Entry>, prefix: bytes): nat {
    if entries == [] then 0
    else SizeUnder(entries[..|entries| - 1], prefix)
         + if Under(entries[|entries| - 1], prefix) then entries[|entries| - 1].size else 0
  }

  /** The sizes shown for some children, added up. */
  ghost function Total(children: map<bytes, Child>): nat
    decreases |children|
  {
    if children == map[] then 0
    else var name :| name in children; children[name].size + Total(children - {name})
  }

  lemma {:induction false} TotalWithout(children: map<bytes, Child>, name: bytes)
    requires name in children
    ensures Total(children) == children[name].size + Total(children - {name})
    decreases |children|
  {
    var other :| other in children && Total(children) == children[other].size + Total(children - {other});
    if other != name {
      TotalWithout(children - {other}, name);
      TotalWithout(children - {name}, other);
      assert children - {other} - {name} == children - {name} - {other};
    }
  }

  lemma TotalWith(children: map<bytes, Child>, name: bytes, child: Child)
    ensures Total(children[name := child]) ==
            Total(children) + child.size - if name in children then children[name].size else 0
  {
    TotalWithout(children[name := child], name);
    if name in children {
      TotalWithout(children, name);
      assert children[name := child] - {name} == children - {name};
    } else {
      assert children[name := child] - {name} == children;
    }
  }

  function Folder(path: bytes): bytes { path + [0x2F] }

  /** What a reader's index of a real tree looks like: only files carry data, no name ends in a slash,
      and what is not a folder shares its name with nothing and has nothing below it. */
  predicate Tidy(entries: seq<Entry>) {
    && (forall i :: 0 <= i < |entries| ==>
          (entries[i].kind != File ==> entries[i].size == 0) && !EndsWithSlash(entries[i].name))
    && (forall i, j :: 0 <= i < |entries| && 0 <= j < |entries| && i != j && entries[i].kind != Directory ==>
          entries[j].name != entries[i].name && !Under(entries[j], Folder(entries[i].name)))
  }

  lemma {:induction false} PrefixSizes(entries: seq<Entry>, prefix: bytes, n: nat)
    requires n <= |entries|
    ensures SizeUnder(entries[..n], prefix) <= SizeUnder(entries, prefix)
    decreases |entries|
  {
    if n == |entries| {
      assert entries[..n] == entries;
    } else {
      assert entries[..|entries| - 1][..n] == entries[..n];
      PrefixSizes(entries[..|entries| - 1], prefix, n);
    }
  }

  /** Where a child comes from: some entry has it as its segment, and a child that is no folder comes
      from an entry of just that name. */
  lemma {:induction false} ChildHasEntry(entries: seq<Entry>, prefix: bytes, name: bytes) returns (i: nat)
    requires name in Children(entries, prefix)
    ensures i < |entries| && Under(entries[i], prefix) && Segment(entries[i], prefix) == name
    ensures InFolder(entries[i], prefix) ==> Children(entries, prefix)[name].isDirectory
    decreases |entries|
  {
    var last := entries[|entries| - 1];
    if Under(last, prefix) && Segment(last, prefix) == name {
      i := |entries| - 1;
    } else {
      i := ChildHasEntry(entries[..|entries| - 1], prefix, name);
    }
  }

  lemma SegmentIsName(e: Entry, prefix: bytes)
    requires Under(e, prefix)
    ensures Find(Rest(e, prefix), 0x2F, 0) == |Rest(e, prefix)| ==> e.name == prefix + Segment(e, prefix)
    ensures Find(Rest(e, prefix), 0x2F, 0) < |Rest(e, prefix)| && !EndsWithSlash(e.name) ==>
              Under(e, Folder(prefix + Segment(e, prefix)))
  {
    var rest := Rest(e, prefix);
    var slash := Find(rest, 0x2F, 0);
    assert e.name == prefix + rest;
    if slash < |rest| {
      assert rest == rest[..slash] + [0x2F] + rest[slash + 1..];
      var inner := Folder(prefix + rest[..slash]);
      assert e.name == inner + rest[slash + 1..];
      if rest[slash + 1..] == [] { assert e.name[|e.name| - 1] == 0x2F; }
      assert e.name[..|inner|] == inner;
    } else {
      assert rest[..slash] == rest;
    }
  }

  /** A name under a folder has that folder as its segment, and lies deeper. */
  lemma UnderFolder(e: Entry, prefix: bytes, name: bytes)
    requires 0x2F !in name && Under(e, Folder(prefix + name))
    ensures Under(e, prefix) && Segment(e, prefix) == name && InFolder(e, prefix)
  {
    var inner := Folder(prefix + name);
    assert e.name == inner + e.name[|inner|..];
    assert e.name[..|prefix|] == inner[..|prefix|] == prefix;
    var rest := Rest(e, prefix);
    assert rest == name + [0x2F] + e.name[|inner|..];
    FindAt(rest, 0x2F, 0, |name|);
  }

  function DataSize(entries: seq<Entry>): nat {
    if entries == [] then 0 else DataSize(entries[..|entries| - 1]) + entries[|entries| - 1].size
  }

  lemma {:induction false} SizeUnderBound(entries: seq<Entry>, prefix: bytes)
    ensures SizeUnder(entries, prefix) <= DataSize(entries)
  {
    if entries != [] { SizeUnderBound(entries[..|entries| - 1], prefix); }
  }

  lemma {:induction false} NothingUnder(entries: seq<Entry>, prefix: bytes, name: bytes)
    requires 0x2F !in name && name !in Children(entries, prefix)
    ensures SizeUnder(entries, Folder(prefix + name)) == 0
    decreases |entries|
  {
    if entries != [] {
      var last := entries[|entries| - 1];
      if Under(last, Folder(prefix + name)) { UnderFolder(last, prefix, name); }
      NothingUnder(entries[..|entries| - 1], prefix, name);
    }
  }

  /** A child's size: a folder shows all the data below it, anything else its own entry's. */
  ghost predicate SizedRight(entries: seq<Entry>, prefix: bytes, child: Child) {
    if child.isDirectory then child.size == SizeUnder(entries, Folder(prefix + child.name))
    else exists i :: 0 <= i < |entries| && entries[i].name == prefix + child.name &&
                     entries[i].kind != Directory && entries[i].size == child.size
  }

  lemma TidyBefore(entries: seq<Entry>)
    requires Tidy(entries) && entries != []
    ensures Tidy(entries[..|entries| - 1])
  {
    var before := entries[..|entries| - 1];
    assert forall i :: 0 <= i < |before| ==> before[i] == entries[i];
  }

  /** The last entry names its child outright and is no folder: no earlier entry had that child. */
  lemma FileIsNew(entries: seq<Entry>, prefix: bytes)
    requires Tidy(entries) && entries != []
    requires var last := entries[|entries| - 1]; Under(last, prefix) && !InFolder(last, prefix)
    ensures Segment(entries[|entries| - 1], prefix) !in Children(entries[..|entries| - 1], prefix)
  {
    var before := entries[..|entries| - 1];
    var last := entries[|entries| - 1];
    var name := Segment(last, prefix);
    SegmentIsName(last, prefix);
    if name in Children(before, prefix) {
      var i := ChildHasEntry(before, prefix, name);
      SegmentIsName(before[i], prefix);
      assert false;
    }
  }

  /** The last entry makes its child a folder: no earlier entry had that child as anything else. */
  lemma FolderStays(entries: seq<Entry>, prefix: bytes)
    requires Tidy(entries) && entries != []
    requires var last := entries[|entries| - 1]; Under(last, prefix) && InFolder(last, prefix)
    ensures var before := entries[..|entries| - 1];
            var name := Segment(entries[|entries| - 1], prefix);
            name in Children(before, prefix) && SizedRight(before, prefix, Children(before, prefix)[name]) &&
            Children(before, prefix)[name].name == name ==>
              Children(before, prefix)[name].isDirectory
  {
    var before := entries[..|entries| - 1];
    var last := entries[|entries| - 1];
    var name := Segment(last, prefix);
    SegmentIsName(last, prefix);
  }

  /** What the last entry adds below its own child's folder is its size. */
  lemma LastUnderOwnFolder(entries: seq<Entry>, prefix: bytes)
    requires Tidy(entries) && entries != []
    requires var last := entries[|entries| - 1]; Under(last, prefix) && InFolder(last, prefix)
    ensures var inner := Folder(prefix + Segment(entries[|entries| - 1], prefix));
            SizeUnder(entries, inner) == SizeUnder(entries[..|entries| - 1], inner) + entries[|entries| - 1].size
  {
    SegmentIsName(entries[|entries| - 1], prefix);
  }

  lemma {:induction false} ChildSized(entries: seq<Entry>, prefix: bytes, name: bytes)
    requires Tidy(entries) && DataSize(entries) < U64
    requires name in Children(entries, prefix)
    ensures 0x2F !in name && Children(entries, prefix)[name].name == name
    ensures SizedRight(entries, prefix, Children(entries, prefix)[name])
    decreases |entries|
  {
    hide Tidy, Under, SizedRight;
    var before := entries[..|entries| - 1];
    var last := entries[|entries| - 1];
    var known := Children(before, prefix);
    TidyBefore(entries);
    if name in known { ChildSized(before, prefix, name); }
    if !Under(last, prefix) || Segment(last, prefix) != name {
      if Under(last, Folder(prefix + name)) { UnderFolder(last, prefix, name); }
      KeptSized(before, last, prefix, known[name]);
      assert before + [last] == entries;
    } else if InFolder(last, prefix) {
      hide InFolder, Segment, Rest;
      FolderStays(entries, prefix);
      LastUnderOwnFolder(entries, prefix);
      if name !in known { NothingUnder(before, prefix, name); }
      FolderSized(entries, prefix, name);
    } else {
      FileIsNew(entries, prefix);
      SegmentIsName(last, prefix);
      FileSized(entries, prefix, Children(entries, prefix)[name], |entries| - 1);
    }
  }

  lemma FolderSized(entries: seq<Entry>, prefix: bytes, name: bytes)
    requires entries != [] && DataSize(entries) < U64
    requires var last := entries[|entries| - 1];
             Under(last, prefix) && InFolder(last, prefix) && Segment(last, prefix) == name
    requires var before := entries[..|entries| - 1];
             var inner := Folder(prefix + name);
             SizeUnder(entries, inner) == SizeUnder(before, inner) + entries[|entries| - 1].size &&
             if name in Children(before, prefix) then
               Children(before, prefix)[name].isDirectory && Children(before, prefix)[name].name == name &&
               SizedRight(before, prefix, Children(before, prefix)[name])
             else SizeUnder(before, inner) == 0
    ensures SizedRight(entries, prefix, Children(entries, prefix)[name])
  {
    hide Under, InFolder, Segment, SizeUnder;
    SizeUnderBound(entries, Folder(prefix + name));
  }

  lemma FileSized(entries: seq<Entry>, prefix: bytes, child: Child, i: nat)
    requires i < |entries| && entries[i].name == prefix + child.name && entries[i].kind != Directory
    requires !child.isDirectory && child.size == entries[i].size
    ensures SizedRight(entries, prefix, child)
  {
  }

  lemma KeptSized(before: seq<Entry>, last: Entry, prefix: bytes, child: Child)
    requires SizedRight(before, prefix, child) && !Under(last, Folder(prefix + child.name))
    ensures SizedRight(before + [last], prefix, child)
  {
    var entries := before + [last];
    assert entries[..|entries| - 1] == before;
    if !child.isDirectory {
      var i :| 0 <= i < |before| && before[i].name == prefix + child.name && before[i].kind != Directory &&
               before[i].size == child.size;
      assert entries[i] == before[i];
    }
  }

  /** Nothing is counted twice and nothing is missed: the sizes shown at one level add up to the data
      below the prefix. */
  lemma {:induction false} LevelAddsUp(entries: seq<Entry>, prefix: bytes)
    requires Tidy(entries) && DataSize(entries) < U64
    ensures Total(Children(entries, prefix)) == SizeUnder(entries, prefix)
    decreases |entries|
  {
    hide Tidy, Under, SizedRight, Segment, InFolder;
    if entries != [] {
      var before := entries[..|entries| - 1];
      var last := entries[|entries| - 1];
      var known := Children(before, prefix);
      TidyBefore(entries);
      LevelAddsUp(before, prefix);
      if Under(last, prefix) {
        var name := Segment(last, prefix);
        TotalWith(known, name, Children(entries, prefix)[name]);
        if InFolder(last, prefix) {
          if name in known {
            ChildSized(before, prefix, name);
            FolderStays(entries, prefix);
            KnownFolder(before, prefix, known[name]);
            SizeUnderBound(before, Folder(prefix + name));
          }
        } else {
          FileIsNew(entries, prefix);
        }
      }
    }
  }

  lemma KnownFolder(entries: seq<Entry>, prefix: bytes, child: Child)
    requires SizedRight(entries, prefix, child) && child.isDirectory
    ensures child.size == SizeUnder(entries, Folder(prefix + child.name))
  {
  }

  /** The size shown for a folder is the sum of the sizes shown inside it, at every level. */
  lemma FolderAddsUp(entries: seq<Entry>, prefix: bytes, name: bytes)
    requires Tidy(entries) && DataSize(entries) < U64
    requires name in Children(entries, prefix) && Children(entries, prefix)[name].isDirectory
    ensures var folder := Children(entries, prefix)[name];
            folder.path == prefix + name && folder.size == Total(Children(entries, Folder(folder.path)))
  {
    ChildSized(entries, prefix, name);
    ChildrenNamed(entries, prefix);
    LevelAddsUp(entries, Folder(prefix + name));
  }

  /** An index never holds more data than the file it was read from, so its sums cannot wrap. */
  lemma {:induction false} IndexedDataFits(entries: seq<Entry>, end: nat)
    requires TarSafety.WellPlaced(entries, end)
    ensures DataSize(entries) <= end
    decreases |entries|
  {
    if entries != [] {
      var before := entries[..|entries| - 1];
      var last := entries[|entries| - 1];
      forall i | 0 <= i < |before| ensures before[i].offset + before[i].size <= last.offset {
        assert entries[i] == before[i];
      }
      assert forall i :: 0 <= i < |before| ==> before[i] == entries[i];
      IndexedDataFits(before, last.offset);
    }
  }
}
