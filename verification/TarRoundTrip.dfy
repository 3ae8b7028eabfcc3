/** Indexing what a writer wrote, whole or cut off anywhere. */
module TarRoundTrip {
  import opened Wrappers
  import opened Bytes
  import opened TarArchive
  import opened TarPax
  import opened TarWriter
  import opened TarNumbers

  // ---------------------------------------------------------------- one record

  /** The metadata pending after a record. */
  function After(r: TarRecord, pending: Pending): Option<Pending>
    requires WellSized(r.fields)
  {
    var flag := r.fields.flag;
    if IsMetadata(flag) then Absorb(flag, r.data, pending)
    else if flag == 0x67 then Some(pending)
    else Some(NONE_PENDING)
  }

  /** The entry a record adds when its data starts at `offset`. */
  function ListedBy(r: TarRecord, pending: Pending, offset: nat): (listed: seq<Entry>)
    requires WellSized(r.fields)
    ensures IsMetadata(r.fields.flag) || r.fields.flag == 0x67 ==> listed == []
  {
    var flag := r.fields.flag;
    var entry := MakeEntry(HeaderBlock(r.fields), pending, offset);
    if IsMetadata(flag) || flag == 0x67 || entry.name == [] then [] else [entry]
  }

  /** A record whose header and pending metadata agree with its data. */
  predicate Fits(r: TarRecord, pending: Pending): (fits: bool)
    ensures fits ==> WellSized(r.fields)
  {
    && WellSized(r.fields)
    && var header := HeaderBlock(r.fields);
       var flag := r.fields.flag;
       if IsMetadata(flag) then
         HeaderSize(header) == |r.data| <= MAX_METADATA_BYTES && Absorb(flag, r.data, pending).Some?
       else if flag == 0x67 then HeaderSize(header) == |r.data|
       else if HasData(flag) then
         HeaderSize(header) <= |r.data| && FinalSize(header, pending) == |r.data| &&
         (SIZE !in pending.pax ==> HeaderSize(header) == |r.data|)
       else r.data == [] && SIZE !in pending.pax
  }

  lemma NextIsRecordEnd(dataOffset: nat, size: nat)
    requires dataOffset + size < U64 / 2
    ensures NextHeader(dataOffset, size) == dataOffset + size + PadTo(size)
  {
  }

  /** The reader at a whole header of a record: it stops there if the data is cut short, and
      otherwise moves past the data with the metadata and entry of this record. */
  lemma StepAtRecord(file: bytes, position: nat, r: TarRecord, pending: Pending, entries: seq<Entry>)
    requires Fits(r, pending) && position + BLOCK <= |file| < U64 / 2
    requires file[position..position + BLOCK] == HeaderBlock(r.fields)
    requires var dataOffset := position + BLOCK;
             dataOffset + |r.data| <= |file| ==> file[dataOffset..dataOffset + |r.data|] == r.data
    ensures var dataOffset := position + BLOCK;
            StepIndex(file, position, pending, entries) ==
            if dataOffset + |r.data| > |file| then Finish(Entries(entries))
            else Continue(dataOffset + |r.data| + PadTo(|r.data|), After(r, pending).value,
                          entries + ListedBy(r, pending, dataOffset))
  {
    hide HeaderBlock, NextHeader, ChecksumValid, IsZeroBlock, HeaderSize, FinalSize, MakeEntry, Absorb, PadTo;
    HeaderReads(r.fields);
    if position + BLOCK + |r.data| <= |file| { NextIsRecordEnd(position + BLOCK, |r.data|); }
  }

  /** A record's header and data in a cut archive. */
  lemma RecordInCut(before: bytes, r: TarRecord, after: bytes, cut: nat)
    requires WellSized(r.fields)
    requires var archive := before + RecordBytes(r) + after; |before| + BLOCK <= cut <= |archive|
    ensures var file := (before + RecordBytes(r) + after)[..cut];
            var dataOffset := |before| + BLOCK;
            file[|before|..dataOffset] == HeaderBlock(r.fields) &&
            (dataOffset + |r.data| <= cut ==> file[dataOffset..dataOffset + |r.data|] == r.data)
  {
    hide HeaderBlock;
    var archive := before + RecordBytes(r) + after;
    var header := HeaderBlock(r.fields);
    var padding := Zeros(PadTo(|r.data|));
    assert archive == before + header + (r.data + padding + after);
    MiddleOf(archive, before, header, r.data + padding + after);
    assert archive == (before + header) + r.data + (padding + after);
    MiddleOf(archive, before + header, r.data, padding + after);
  }

  // ---------------------------------------------------------------- all records

  /** Every record fits the metadata pending when the reader gets to it. */
  predicate AllFit(records: seq<TarRecord>, pending: Pending)
    decreases |records|
  {
    records == [] || (Fits(records[0], pending) && After(records[0], pending).Some? &&
                      AllFit(records[1..], After(records[0], pending).value))
  }

  /** The cut goes through a header block, or through the first end-of-archive block. */
  predicate CutsHeader(records: seq<TarRecord>, start: nat, cut: nat)
    requires AllWellSized(records)
    decreases |records|
  {
    || start < cut < start + BLOCK
    || (records != [] && CutsHeader(records[1..], start + |RecordBytes(records[0])|, cut))
  }

  /** The cut goes through the data or the padding of the next record. */
  lemma CutInRecord(before: bytes, records: seq<TarRecord>, endBlocks: nat, cut: nat, pending: Pending,
                    entries: seq<Entry>)
    requires records != [] && AllWellSized(records) && AllFit(records, pending)
    requires cut <= |before + Layout(records) + Zeros(endBlocks * BLOCK)| < U64 / 2
    requires |before| + BLOCK <= cut < |before| + |RecordBytes(records[0])|
    ensures IndexFrom((before + Layout(records) + Zeros(endBlocks * BLOCK))[..cut], |before|, pending, entries) ==
            if CutsHeader(records, |before|, cut) then Failed(Truncated)
            else Entries(entries + Complete(records, |before|, cut, pending))
  {
    hide StepIndex, HeaderBlock, RecordBytes, ListedBy, After, Fits, Layout, WellSized;
    var archive := before + Layout(records) + Zeros(endBlocks * BLOCK);
    var file := archive[..cut];
    var start := |before|;
    var r := records[0];
    LayoutFirst(records);
    var after := Layout(records[1..]) + Zeros(endBlocks * BLOCK);
    assert archive == before + RecordBytes(r) + after;
    RecordInCut(before, r, after, cut);
    StepAtRecord(file, start, r, pending, entries);
    var next, more := start + |RecordBytes(r)|, After(r, pending).value;
    NothingPastCut(records[1..], next, cut, more);
    if start + BLOCK + |r.data| <= cut {
      ShortOfHeader(file, next, more, entries + ListedBy(r, pending, start + BLOCK));
    }
  }

  /** The next record lies before the cut. */
  lemma PastRecord(before: bytes, records: seq<TarRecord>, endBlocks: nat, cut: nat, pending: Pending,
                   entries: seq<Entry>)
    requires records != [] && AllWellSized(records) && AllFit(records, pending)
    requires cut <= |before + Layout(records) + Zeros(endBlocks * BLOCK)| < U64 / 2
    requires |before| + |RecordBytes(records[0])| <= cut
    ensures var file := (before + Layout(records) + Zeros(endBlocks * BLOCK))[..cut];
            var r := records[0];
            && |before| + BLOCK + |r.data| <= |before| + |RecordBytes(r)|
            && IndexFrom(file, |before|, pending, entries) ==
               IndexFrom(file, |before| + |RecordBytes(r)|, After(r, pending).value,
                         entries + ListedBy(r, pending, |before| + BLOCK))
  {
    hide StepIndex, HeaderBlock, RecordBytes, ListedBy, After, Fits, Layout, WellSized;
    var archive := before + Layout(records) + Zeros(endBlocks * BLOCK);
    var r := records[0];
    LayoutFirst(records);
    var after := Layout(records[1..]) + Zeros(endBlocks * BLOCK);
    assert archive == before + RecordBytes(r) + after;
    RecordInCut(before, r, after, cut);
    StepAtRecord(archive[..cut], |before|, r, pending, entries);
  }

  lemma NoRecordsLeft(before: bytes, endBlocks: nat, cut: nat)
    requires |before| <= cut <= |before + Layout([]) + Zeros(endBlocks * BLOCK)|
    ensures forall i | |before| <= i < cut :: (before + Layout([]) + Zeros(endBlocks * BLOCK))[..cut][i] == 0
  {
  }

  lemma LayoutFirst(records: seq<TarRecord>)
    requires records != [] && AllWellSized(records)
    ensures Layout(records) == RecordBytes(records[0]) + Layout(records[1..])
    ensures |Layout(records)| == |RecordBytes(records[0])| + |Layout(records[1..])|
  {
    hide RecordBytes;
  }

  /** The entries whose header and data lie wholly before the cut. */
  function Complete(records: seq<TarRecord>, start: nat, cut: nat, pending: Pending): seq<Entry>
    requires AllFit(records, pending)
    decreases |records|
  {
    if records == [] then [] else
      var r := records[0];
      (if start + BLOCK + |r.data| <= cut then ListedBy(r, pending, start + BLOCK) else [])
      + Complete(records[1..], start + |RecordBytes(r)|, cut, After(r, pending).value)
  }

  lemma {:induction false} NothingPastCut(records: seq<TarRecord>, start: nat, cut: nat, pending: Pending)
    requires AllFit(records, pending) && AllWellSized(records) && cut <= start
    ensures Complete(records, start, cut, pending) == [] && !CutsHeader(records, start, cut)
    decreases |records|
  {
    hide Fits, After, ListedBy, RecordBytes;
    if records != [] {
      NothingPastCut(records[1..], start + |RecordBytes(records[0])|, cut, After(records[0], pending).value);
    }
  }

  lemma ShortOfHeader(file: bytes, position: nat, pending: Pending, entries: seq<Entry>)
    requires |file| < position + BLOCK && |file| < U64 / 2
    ensures IndexFrom(file, position, pending, entries) ==
            if position < |file| then Failed(Truncated) else Entries(entries)
  {
  }

  lemma EndBlock(file: bytes, position: nat, pending: Pending, entries: seq<Entry>)
    requires position + BLOCK <= |file| < U64 / 2
    requires forall i :: position <= i < position + BLOCK ==> file[i] == 0
    ensures StepIndex(file, position, pending, entries) == Finish(Entries(entries))
  {
    var header: Header := file[position..position + BLOCK];
    assert forall i :: 0 <= i < BLOCK ==> header[i] == file[position + i];
    assert IsZeroBlock(header);
  }

  lemma {:induction false} IndexOfRecords(before: bytes, records: seq<TarRecord>, endBlocks: nat, cut: nat,
                                          pending: Pending, entries: seq<Entry>)
    requires AllWellSized(records) && AllFit(records, pending)
    requires cut <= |before + Layout(records) + Zeros(endBlocks * BLOCK)| < U64 / 2
    requires |before| <= cut
    ensures IndexFrom((before + Layout(records) + Zeros(endBlocks * BLOCK))[..cut], |before|, pending, entries) ==
            if CutsHeader(records, |before|, cut) then Failed(Truncated)
            else Entries(entries + Complete(records, |before|, cut, pending))
    decreases |records|
  {
    hide StepIndex, HeaderBlock, RecordBytes, ListedBy, After, Fits, Layout, WellSized;
    var archive := before + Layout(records) + Zeros(endBlocks * BLOCK);
    var file := archive[..cut];
    var start := |before|;
    if cut - start < BLOCK {
      ShortOfHeader(file, start, pending, entries);
      if records != [] {
        NothingPastCut(records[1..], start + |RecordBytes(records[0])|, cut, After(records[0], pending).value);
      }
    } else if records == [] {
      NoRecordsLeft(before, endBlocks, cut);
      EndBlock(file, start, pending, entries);
    } else if cut < start + |RecordBytes(records[0])| {
      CutInRecord(before, records, endBlocks, cut, pending, entries);
    } else {
      PastRecord(before, records, endBlocks, cut, pending, entries);
      var r := records[0];
      LayoutFirst(records);
      assert archive == (before + RecordBytes(r)) + Layout(records[1..]) + Zeros(endBlocks * BLOCK);
      IndexOfRecords(before + RecordBytes(r), records[1..], endBlocks, cut, After(r, pending).value,
                     entries + ListedBy(r, pending, start + BLOCK));
    }
  }

  // ---------------------------------------------------------------- names and pending metadata

  lemma {:induction false} DropsDots(dots: nat, rest: bytes)
    requires !StartsDotSlash(rest)
    ensures DropDotSlashes(Repeat([0x2E, 0x2F], dots) + rest) == rest
  {
    if dots == 0 {
      assert [] + rest == rest;
    } else {
      var name := Repeat([0x2E, 0x2F], dots) + rest;
      assert name == [0x2E, 0x2F] + (Repeat([0x2E, 0x2F], dots - 1) + rest);
      assert name[2..] == Repeat([0x2E, 0x2F], dots - 1) + rest;
      DropsDots(dots - 1, rest);
    }
  }

  lemma {:induction false} SlashesOnly(slashes: nat)
    ensures DropSlashes(Repeat([0x2F], slashes)) == []
    ensures forall i :: 0 <= i < |Repeat([0x2F], slashes)| ==> Repeat([0x2F], slashes)[i] == 0x2F
    ensures |Repeat([0x2F], slashes)| == slashes
  {
    if slashes > 0 {
      assert Repeat([0x2F], slashes)[1..] == Repeat([0x2F], slashes - 1);
      SlashesOnly(slashes - 1);
    }
  }

  lemma {:induction false} TrimsSlashes(path: bytes, slashes: nat)
    requires path != [] && path[|path| - 1] != 0x2F
    ensures TrimSlashes(path + Repeat([0x2F], slashes)) == path
  {
    var name := path + Repeat([0x2F], slashes);
    if slashes == 0 {
      assert name == path;
    } else {
      SlashesOnly(slashes);
      SlashesOnly(slashes - 1);
      assert name[|name| - 1] == 0x2F;
      assert name[..|name| - 1] == path + Repeat([0x2F], slashes - 1);
      TrimsSlashes(path, slashes - 1);
    }
  }

  /** The reader's cleaning undoes what the writer put around a canonical path. */
  lemma CleansWritten(m: Member)
    requires CanonicalPath(m)
    ensures CleanName(WrittenName(m)) == if m.path == [] then [] else m.path + Repeat([0x2F], m.slashes)
    ensures m.path != [] ==> TrimSlashes(m.path + Repeat([0x2F], m.slashes)) == m.path
    ensures m.path != [] && m.slashes == 0 ==> m.path + Repeat([0x2F], m.slashes) == m.path
  {
    var rest := m.path + Repeat([0x2F], m.slashes);
    SlashesOnly(m.slashes);
    assert |m.path| == 1 ==> m.path == [m.path[0]];
    assert !StartsDotSlash(rest);
    DropsDots(m.dots, rest);
    if m.path == [] {
      assert rest == Repeat([0x2F], m.slashes);
    } else {
      assert rest[0] == m.path[0];
      TrimsSlashes(m.path, m.slashes);
    }
  }

  lemma {:induction false} NoNul(s: bytes, n: nat)
    requires 0 !in s
    ensures 0 !in Repeat(s, n)
  {
    if n > 0 { NoNul(s, n - 1); }
  }

  lemma PaddedReads(s: bytes, width: nat)
    requires |s| <= width && 0 !in s
    ensures UpToNul(Padded(s, width)) == s
  {
    UpToNulAt(Padded(s, width), |s|);
  }

  lemma TerminatedReads(s: bytes)
    requires 0 !in s
    ensures UpToNul(s + [0]) == s
  {
    UpToNulAt(s + [0], |s|);
  }

  lemma {:induction false} MeaningOfConcat(fields: map<bytes, bytes>, a: seq<(bytes, bytes)>, b: seq<(bytes, bytes)>)
    ensures PaxMeaning(fields, a + b) == PaxMeaning(PaxMeaning(fields, a), b)
    decreases |a|
  {
    if a == [] {
      assert a + b == b;
    } else {
      assert (a + b)[1..] == a[1..] + b;
      MeaningOfConcat(fields[a[0].0 := a[0].1], a[1..], b);
    }
  }

  lemma {:induction false} MeaningElsewhere(fields: map<bytes, bytes>, records: seq<(bytes, bytes)>, key: bytes)
    requires forall k :: 0 <= k < |records| ==> records[k].0 != key
    ensures key in PaxMeaning(fields, records) <==> key in fields
    ensures key in fields ==> PaxMeaning(fields, records)[key] == fields[key]
    decreases |records|
  {
    if records != [] { MeaningElsewhere(fields[records[0].0 := records[0].1], records[1..], key); }
  }

  lemma {:induction false} MeaningFromRecord(fields: map<bytes, bytes>, records: seq<(bytes, bytes)>, key: bytes)
    ensures var meaning := PaxMeaning(fields, records);
            key in meaning ==> (key in fields && meaning[key] == fields[key]) ||
                               exists k :: 0 <= k < |records| && records[k] == (key, meaning[key])
    decreases |records|
  {
    if records != [] {
      MeaningFromRecord(fields[records[0].0 := records[0].1], records[1..], key);
      assert forall k | 0 <= k < |records| - 1 :: records[1..][k] == records[k + 1];
    }
  }

  /** What is pending when the reader gets to a member's own header. */
  function PendingFor(m: Member): Pending {
    Pending(GnuName(m),
            if m.linkForm == InGnuLink then m.target else [],
            PaxMeaning(map[], PaxKeywords(m)))
  }

  lemma KeywordsMean(m: Member)
    requires Writable(m)
    ensures var pax := PaxMeaning(map[], PaxKeywords(m));
            (PATH in pax <==> m.nameForm.InPaxName?) && (PATH in pax ==> pax[PATH] == WrittenName(m)) &&
            (m.linkForm != InGnuLink ==> (LINKPATH in pax <==> m.linkForm == InPaxLink)) &&
            (m.linkForm == InPaxLink ==> pax[LINKPATH] == m.target) &&
            (m.sizeForm.PaxSize? ==> SIZE in pax && pax[SIZE] == Decimal(|m.data|)) &&
            (!m.sizeForm.PaxSize? && SIZE in pax ==> Stoull(pax[SIZE]) == None && Carries(m.kind))
  {
    var named := if m.nameForm.InPaxName? then [(PATH, WrittenName(m))] else [];
    var linked := if m.linkForm == InPaxLink then [(LINKPATH, m.target)] else [];
    var sized := if m.sizeForm.PaxSize? then [(SIZE, Decimal(|m.data|))] else [];
    KeywordsAre();
    hide Ascii;
    assert PATH != SIZE && PATH != LINKPATH && SIZE != LINKPATH by {
      assert PATH[0] != SIZE[0] && |LINKPATH| == 8;
    }
    var base := PaxMeaning(map[], m.keywords);
    MeaningElsewhere(map[], m.keywords, PATH);
    if m.linkForm != InGnuLink { MeaningElsewhere(map[], m.keywords, LINKPATH); }
    MeaningFromRecord(map[], m.keywords, SIZE);
    MeaningOfConcat(map[], m.keywords, named);
    MeaningOfConcat(map[], m.keywords + named, linked);
    MeaningOfConcat(map[], m.keywords + named + linked, sized);
  }

  // ---------------------------------------------------------------- one member

  function TypeOf(kind: Kind): EntryType {
    match kind
    case Plain(_) => File
    case Folder => Directory
    case OldFolder(_) => Directory
    case SymbolicLink => Symlink
    case HardLink => Other
    case Special(_) => Other
  }

  /** The entry a member should be listed as: its path, type, data size, time and link target, and
      the place of its data. */
  function ExpectedEntry(m: Member, offset: nat): Entry {
    var kind := TypeOf(m.kind);
    Entry(m.path, kind, if kind == File then |m.data| else 0, offset, m.time, m.target)
  }

  lemma WrittenHasNoNul(m: Member)
    requires CanonicalPath(m)
    ensures 0 !in WrittenName(m)
  {
    NoNul([0x2E, 0x2F], m.dots);
    NoNul([0x2F], m.slashes);
  }

  lemma MainSized(m: Member)
    requires Writable(m)
    ensures WellSized(MainRecord(m).fields) && MainRecord(m).fields.flag == FlagOf(m.kind)
  {
  }

  lemma NameFieldsOf(m: Member)
    requires Writable(m)
    ensures var f := MainRecord(m).fields;
            var written := WrittenName(m);
            (m.nameForm == InName ==> f.name == Padded(written, 100) && f.prefix == Zeros(155)) &&
            (m.nameForm.InPrefix? ==>
               f.name == Padded(written[m.nameForm.split + 1..], 100) && f.magic == USTAR &&
               f.prefix == Padded(written[..m.nameForm.split], 155))
  {
    KeywordsAre();
    hide WrittenName, Padded;
  }

  lemma NameFromField(header: Header, pending: Pending, written: bytes)
    requires PATH !in pending.pax && pending.longName == [] && 0 !in written && |written| <= 100
    requires header[0..100] == Padded(written, 100) && header[345..500] == Zeros(155)
    ensures RawName(header, pending) == written
  {
    PaddedReads(written, 100);
    UpToNulAt(Zeros(155), 0);
  }

  lemma NameFromPrefix(header: Header, pending: Pending, written: bytes, split: nat)
    requires PATH !in pending.pax && pending.longName == [] && 0 !in written
    requires 0 < split <= 155 && split < |written| <= split + 101 && written[split] == 0x2F
    requires header[0..100] == Padded(written[split + 1..], 100) && header[257..262] == USTAR
    requires header[345..500] == Padded(written[..split], 155)
    ensures RawName(header, pending) == written
  {
    PaddedReads(written[split + 1..], 100);
    PaddedReads(written[..split], 155);
    UpToNulAt(USTAR, 5);
    assert USTAR[..5] == USTAR;
    assert written == written[..split] + [0x2F] + written[split + 1..];
  }

  lemma NameFits(m: Member)
    requires Writable(m)
    ensures m.nameForm == InName ==> |WrittenName(m)| <= 100
    ensures m.nameForm.InPrefix? ==>
              var split := m.nameForm.split;
              0 < split <= 155 && split < |WrittenName(m)| <= split + 101 && WrittenName(m)[split] == 0x2F
    ensures m.nameForm == InGnuName ==> WrittenName(m) != []
  {
    hide WrittenName;
  }

  /** The name the reader puts together, in every form the writer can have used. */
  lemma NameReads(m: Member)
    requires Writable(m)
    ensures RawName(HeaderBlock(MainRecord(m).fields), PendingFor(m)) == WrittenName(m)
  {
    hide HeaderBlock, WrittenName, PaxKeywords, PaxMeaning, MainRecord, Padded, UpToNul, WritePax, MayRecord, Decimal,
         ChecksumValid, IsZeroBlock, Ascii;
    MainSized(m);
    HeaderReads(MainRecord(m).fields);
    KeywordsMean(m);
    WrittenHasNoNul(m);
    NameFieldsOf(m);
    NameFits(m);
    hide HeaderBlock, WrittenName, PaxKeywords, PaxMeaning, MainRecord, Padded, UpToNul, Writable, CanonicalPath;
    var header := HeaderBlock(MainRecord(m).fields);
    match m.nameForm {
      case InName =>
        hide RawName;
        NameFromField(header, PendingFor(m), WrittenName(m));
      case InPrefix(split) =>
        hide RawName;
        NameFromPrefix(header, PendingFor(m), WrittenName(m), split);
      case InGnuName =>
      case InPaxName(_) =>
    }
  }

  lemma LinkReads(m: Member)
    requires Writable(m)
    ensures LinkTarget(HeaderBlock(MainRecord(m).fields), PendingFor(m)) == m.target
  {
    hide HeaderBlock, WrittenName, PaxKeywords, PaxMeaning;
    var f := MainRecord(m).fields;
    MainSized(m);
    HeaderReads(f);
    KeywordsMean(m);
    if m.linkForm == InLinkField { PaddedReads(m.target, 100); }
  }

  lemma SizeReads(m: Member)
    requires Writable(m)
    ensures var header := HeaderBlock(MainRecord(m).fields);
            (Carries(m.kind) ==>
               FinalSize(header, PendingFor(m)) == |m.data| && HeaderSize(header) <= |m.data|) &&
            (SIZE in PendingFor(m).pax ==> Carries(m.kind)) &&
            (Carries(m.kind) && !m.sizeForm.PaxSize? ==> HeaderSize(header) == |m.data|) &&
            (m.sizeForm.PaxSize? ==> SIZE in PendingFor(m).pax)
  {
    hide HeaderBlock, WrittenName, PaxKeywords, PaxMeaning, OctalField, Number, Stoull, Decimal;
    var f := MainRecord(m).fields;
    MainSized(m);
    HeaderReads(f);
    KeywordsMean(m);
    EightToTheEleventh();
    if Carries(m.kind) {
      match m.sizeForm
      case OctalSize => OctalFieldReads(|m.data|, 11, []);
      case Base256Size => Base256FieldReads(|m.data|);
      case PaxSize(recorded) =>
        OctalFieldReads(recorded, 11, []);
        StoullDecimal(|m.data|);
    }
  }

  lemma EightToTheEleventh()
    ensures Pow8(11) == 0x2_0000_0000
  {
    assert Pow8(5) == 32768;
    assert Pow8(11) == 8 * (8 * (8 * (8 * (8 * (8 * Pow8(5))))));
  }

  lemma TimeReads(m: Member)
    requires Writable(m)
    ensures HeaderTime(HeaderBlock(MainRecord(m).fields)) == m.time
  {
    hide HeaderBlock, TimeField, AsSigned, Number;
    MainSized(m);
    HeaderReads(MainRecord(m).fields);
    TimeFieldReads(m.time);
  }

  lemma EntryReads(m: Member, offset: nat)
    requires Writable(m) && m.path != []
    ensures MakeEntry(HeaderBlock(MainRecord(m).fields), PendingFor(m), offset) == ExpectedEntry(m, offset)
  {
    var header := HeaderBlock(MainRecord(m).fields);
    MainSized(m);
    assert header[156] == FlagOf(m.kind) by { HeaderReads(MainRecord(m).fields); }
    NameReads(m);
    LinkReads(m);
    SizeReads(m);
    TimeReads(m);
    CleansWritten(m);
    hide MainRecord, HeaderBlock, RawName, LinkTarget, HeaderTime, HeaderSize, FinalSize, PendingFor, CleanName,
         WrittenName, TrimSlashes, Repeat;
  }

  lemma TopIsNotListed(m: Member, offset: nat)
    requires Writable(m) && m.path == []
    ensures MakeEntry(HeaderBlock(MainRecord(m).fields), PendingFor(m), offset).name == []
  {
    hide MainRecord, HeaderBlock, RawName, LinkTarget, HeaderTime, HeaderSize, FinalSize, PendingFor, CleanName,
         WrittenName, Repeat;
    NameReads(m);
    CleansWritten(m);
  }

  /** A member's own header, read with its metadata pending, fits its data and lists the member. */
  lemma MainReads(m: Member, offset: nat)
    requires Writable(m)
    ensures Fits(MainRecord(m), PendingFor(m))
    ensures After(MainRecord(m), PendingFor(m)) == Some(NONE_PENDING)
    ensures ListedBy(MainRecord(m), PendingFor(m), offset) ==
            if m.path == [] then [] else [ExpectedEntry(m, offset)]
  {
    var r := MainRecord(m);
    MainSized(m);
    CarriesIsData(m.kind);
    assert !IsMetadata(r.fields.flag) && r.fields.flag != 0x67 && r.data == m.data;
    SizeReads(m);
    if m.path == [] { TopIsNotListed(m, offset); } else { EntryReads(m, offset); }
    hide MainRecord, HeaderBlock, MakeEntry, HeaderSize, FinalSize, PendingFor, WrittenName;
  }

  // ---------------------------------------------------------------- one item among others

  lemma MetadataSized(flag: byte, data: bytes, free: Fields)
    requires WellSized(free) && |data| < Pow8(11)
    ensures var r := MetadataRecord(flag, data, free);
            WellSized(r.fields) && r.fields.flag == flag && HeaderSize(HeaderBlock(r.fields)) == |data|
  {
    hide HeaderBlock;
    var r := MetadataRecord(flag, data, free);
    HeaderReads(r.fields);
    EightToTheEleventh();
    OctalFieldReads(|data|, 11, []);
  }

  /** A metadata record in front of others: the rest is read with what it leaves pending. */
  lemma MetadataReads(flag: byte, data: bytes, free: Fields, pending: Pending)
    requires IsMetadata(flag) && WellSized(free) && |data| <= MAX_METADATA_BYTES
    requires Absorb(flag, data, pending).Some?
    ensures var r := MetadataRecord(flag, data, free);
            Fits(r, pending) && After(r, pending) == Absorb(flag, data, pending)
  {
    hide HeaderBlock, HeaderSize, Absorb;
    EightToTheEleventh();
    MetadataSized(flag, data, free);
  }

  /** Records that add nothing to the list until the last one. */
  ghost predicate LeadsTo(records: seq<TarRecord>, pending: Pending, final: Pending)
    decreases |records|
  {
    if records == [] then pending == final
    else Fits(records[0], pending) && IsMetadata(records[0].fields.flag) &&
         After(records[0], pending).Some? && LeadsTo(records[1..], After(records[0], pending).value, final)
  }

  lemma {:induction false} LeadsToConcat(a: seq<TarRecord>, b: seq<TarRecord>, p: Pending, q: Pending, r: Pending)
    requires LeadsTo(a, p, q) && LeadsTo(b, q, r)
    ensures LeadsTo(a + b, p, r)
    decreases |a|
  {
    hide Fits, After;
    if a == [] {
      assert a + b == b;
    } else {
      assert (a + b)[1..] == a[1..] + b;
      LeadsToConcat(a[1..], b, After(a[0], p).value, q, r);
    }
  }

  lemma LeadsToOne(record: TarRecord, p: Pending, q: Pending)
    requires Fits(record, p) && IsMetadata(record.fields.flag) && After(record, p) == Some(q)
    ensures LeadsTo([record], p, q)
  {
    hide Fits, After;
    assert [record][1..] == [];
  }

  lemma LinkLeads(target: bytes, free: Fields)
    requires WellSized(free) && 0 !in target && |target| < MAX_METADATA_BYTES
    ensures LeadsTo([MetadataRecord(0x4B, target + [0], free)], NONE_PENDING, NONE_PENDING.(longLink := target))
  {
    TerminatedReads(target);
    MetadataReads(0x4B, target + [0], free, NONE_PENDING);
    EightToTheEleventh();
    MetadataSized(0x4B, target + [0], free);
    LeadsToOne(MetadataRecord(0x4B, target + [0], free), NONE_PENDING, NONE_PENDING.(longLink := target));
  }

  lemma NameLeads(name: bytes, free: Fields, pending: Pending)
    requires WellSized(free) && 0 !in name && |name| < MAX_METADATA_BYTES
    ensures LeadsTo([MetadataRecord(0x4C, name + [0], free)], pending, pending.(longName := name))
  {
    TerminatedReads(name);
    MetadataReads(0x4C, name + [0], free, pending);
    EightToTheEleventh();
    MetadataSized(0x4C, name + [0], free);
    LeadsToOne(MetadataRecord(0x4C, name + [0], free), pending, pending.(longName := name));
  }

  lemma KeywordsLead(keywords: seq<(bytes, bytes)>, free: Fields, pending: Pending)
    requires WellSized(free) && |WritePax(keywords)| <= MAX_METADATA_BYTES
    requires forall i :: 0 <= i < |keywords| ==> 0x3D !in keywords[i].0
    ensures LeadsTo([MetadataRecord(0x78, WritePax(keywords), free)], pending,
                    pending.(pax := PaxMeaning(pending.pax, keywords)))
  {
    ParsesWritten(keywords, pending.pax);
    MetadataReads(0x78, WritePax(keywords), free, pending);
    EightToTheEleventh();
    MetadataSized(0x78, WritePax(keywords), free);
    LeadsToOne(MetadataRecord(0x78, WritePax(keywords), free), pending,
               pending.(pax := PaxMeaning(pending.pax, keywords)));
  }

  lemma KeywordsHaveNoEquals(m: Member)
    requires Writable(m)
    ensures forall i :: 0 <= i < |PaxKeywords(m)| ==> 0x3D !in PaxKeywords(m)[i].0
  {
    hide WrittenName, CanonicalPath, WellSized, WritePax, Decimal, Carries;
  }

  /** The metadata of a member leaves pending just what the member's own header needs. */
  lemma MetadataLeads(m: Member)
    requires Writable(m)
    ensures LeadsTo(Metadata(m), NONE_PENDING, PendingFor(m))
  {
    var free := m.freeMetadata;
    var links := if m.linkForm == InGnuLink then [MetadataRecord(0x4B, m.target + [0], free)] else [];
    var names := if GnuName(m) != [] then [MetadataRecord(0x4C, GnuName(m) + [0], free)] else [];
    var paxes := if PaxKeywords(m) != [] then [MetadataRecord(0x78, WritePax(PaxKeywords(m)), free)] else [];
    assert Metadata(m) == links + names + paxes;
    WrittenHasNoNul(m);
    KeywordsHaveNoEquals(m);
    assert 0 !in GnuName(m) && |GnuName(m)| < 1048576;
    hide MetadataRecord, WrittenName, PaxKeywords, Metadata, GnuName;
    var p1 := PendingFor(m).(longName := [], pax := map[]);
    var p2 := PendingFor(m).(pax := map[]);
    if m.linkForm == InGnuLink { LinkLeads(m.target, free); }
    if GnuName(m) != [] { NameLeads(GnuName(m), free, p1); }
    if PaxKeywords(m) != [] { KeywordsLead(PaxKeywords(m), free, p2); }
    LeadsToConcat(links, names, NONE_PENDING, p1, p2);
    LeadsToConcat(links + names, paxes, NONE_PENDING, p2, PendingFor(m));
  }

  function LayoutSize(records: seq<TarRecord>): nat
    requires AllWellSized(records)
  {
    |Layout(records)|
  }

  lemma NothingLaid()
    ensures LayoutSize([]) == 0
  {
  }

  /** Metadata leading to a record that lists something, in front of further records. */
  lemma {:induction false} LeadingRecords(lead: seq<TarRecord>, last: TarRecord, rest: seq<TarRecord>, start: nat,
                                          cut: nat, pending: Pending, final: Pending)
    requires LeadsTo(lead, pending, final) && Fits(last, final) && After(last, final) == Some(NONE_PENDING)
    requires AllFit(rest, NONE_PENDING) && AllWellSized(lead)
    ensures AllFit(lead + [last] + rest, pending)
    ensures AllWellSized([last])
    ensures var offset := start + LayoutSize(lead) + BLOCK;
            Complete(lead + [last] + rest, start, cut, pending) ==
            (if offset + |last.data| <= cut then ListedBy(last, final, offset) else [])
            + Complete(rest, start + LayoutSize(lead) + |RecordBytes(last)|, cut, NONE_PENDING)
    decreases |lead|
  {
    hide Fits, After, ListedBy, RecordBytes, WellSized, Layout;
    var all := lead + [last] + rest;
    if lead == [] {
      assert all[1..] == rest;
      NothingLaid();
    } else {
      assert all[1..] == lead[1..] + [last] + rest;
      LayoutFirst(lead);
      LeadingRecords(lead[1..], last, rest, start + |RecordBytes(lead[0])|, cut, After(lead[0], pending).value, final);
    }
  }

  // ---------------------------------------------------------------- the archive

  function ItemSize(item: Item): nat
    requires WritableItem(item)
  {
    LayoutSize(RecordsOf(item))
  }

  /** How far into a member's records its data starts. */
  function DataStart(m: Member): nat
    requires Writable(m)
  {
    LayoutSize(Metadata(m)) + BLOCK
  }

  /** What one item adds to the list when its records start at `start`. The archive's top is not listed. */
  function ListedItem(item: Item, start: nat): (listed: seq<Entry>)
    requires WritableItem(item)
    ensures item.GlobalItem? ==> listed == []
  {
    if item.GlobalItem? || item.member.path == [] then []
    else [ExpectedEntry(item.member, start + DataStart(item.member))]
  }

  function DataEnd(item: Item, start: nat): nat
    requires WritableItem(item)
  {
    match item
    case GlobalItem(data, _) => start + BLOCK + |data|
    case MemberItem(m) => start + DataStart(m) + |m.data|
  }

  /** The members in order, with the places of their data. */
  function Listing(items: seq<Item>, start: nat): seq<Entry>
    requires AllWritable(items)
  {
    if items == [] then []
    else ListedItem(items[0], start) + Listing(items[1..], start + ItemSize(items[0]))
  }

  /** Of those, the members whose header and data lie wholly before the cut. */
  function ListingBefore(items: seq<Item>, start: nat, cut: nat): seq<Entry>
    requires AllWritable(items)
  {
    if items == [] then []
    else (if DataEnd(items[0], start) <= cut then ListedItem(items[0], start) else [])
         + ListingBefore(items[1..], start + ItemSize(items[0]), cut)
  }

  lemma {:induction false} LayoutConcat(a: seq<TarRecord>, b: seq<TarRecord>)
    requires AllWellSized(a) && AllWellSized(b)
    ensures AllWellSized(a + b) && Layout(a + b) == Layout(a) + Layout(b)
    decreases |a|
  {
    hide RecordBytes, WellSized;
    if a == [] {
      assert a + b == b && [] + Layout(b) == Layout(b);
    } else {
      assert (a + b)[1..] == a[1..] + b;
      LayoutConcat(a[1..], b);
      Regroup(RecordBytes(a[0]), Layout(a[1..]), Layout(b));
    }
  }

  lemma Regroup(x: bytes, y: bytes, z: bytes)
    ensures x + (y + z) == (x + y) + z
  {
  }

  lemma LayoutOne(r: TarRecord)
    requires WellSized(r.fields)
    ensures AllWellSized([r]) && Layout([r]) == RecordBytes(r)
  {
    hide RecordBytes;
    assert [r][1..] == [];
    assert RecordBytes(r) + [] == RecordBytes(r);
  }

  lemma GlobalReads(data: bytes, free: Fields, offset: nat)
    requires WellSized(free) && |data| < Pow8(11)
    ensures var r := MetadataRecord(0x67, data, free);
            Fits(r, NONE_PENDING) && After(r, NONE_PENDING) == Some(NONE_PENDING) &&
            ListedBy(r, NONE_PENDING, offset) == []
  {
    hide HeaderBlock, HeaderSize;
    MetadataSized(0x67, data, free);
  }

  lemma {:induction false} RecordsListItems(items: seq<Item>, start: nat, cut: nat)
    requires AllWritable(items)
    ensures AllFit(AllRecords(items), NONE_PENDING)
    ensures Complete(AllRecords(items), start, cut, NONE_PENDING) == ListingBefore(items, start, cut)
    decreases |items|
  {
    hide WritableItem, RecordsOf, ListedItem, DataEnd, Fits, After, ListedBy, RecordBytes, ItemSize, LayoutSize;
    if items != [] {
      RecordsListItems(items[1..], start + ItemSize(items[0]), cut);
      ItemAmongRecords(items[0], AllRecords(items[1..]), start, cut);
    }
  }

  lemma ItemAmongRecords(item: Item, rest: seq<TarRecord>, start: nat, cut: nat)
    requires WritableItem(item) && AllWellSized(rest) && AllFit(rest, NONE_PENDING)
    ensures AllFit(RecordsOf(item) + rest, NONE_PENDING)
    ensures Complete(RecordsOf(item) + rest, start, cut, NONE_PENDING) ==
            (if DataEnd(item, start) <= cut then ListedItem(item, start) else [])
            + Complete(rest, start + ItemSize(item), cut, NONE_PENDING)
  {
    hide WritableItem, RecordsOf, ListedItem, DataEnd, Complete, AllFit, ItemSize;
    match item
    case MemberItem(m) => MemberAmongRecords(m, rest, start, cut);
    case GlobalItem(data, free) => GlobalAmongRecords(data, free, rest, start, cut);
  }

  lemma MemberAmongRecords(m: Member, rest: seq<TarRecord>, start: nat, cut: nat)
    requires WritableItem(MemberItem(m)) && AllWellSized(rest) && AllFit(rest, NONE_PENDING)
    ensures AllFit(RecordsOf(MemberItem(m)) + rest, NONE_PENDING)
    ensures Complete(RecordsOf(MemberItem(m)) + rest, start, cut, NONE_PENDING) ==
            (if DataEnd(MemberItem(m), start) <= cut then ListedItem(MemberItem(m), start) else [])
            + Complete(rest, start + ItemSize(MemberItem(m)), cut, NONE_PENDING)
  {
    hide Writable, RecordsOf, Metadata, MainRecord, Fits, After, ListedBy, RecordBytes, PendingFor, ExpectedEntry,
         ListedItem, LayoutSize, LeadsTo, Complete, AllFit, ItemSize;
    MemberRecords(m);
    MemberSize(m);
    MainLists(m, start);
    LeadingRecords(Metadata(m), MainRecord(m), rest, start, cut, NONE_PENDING, PendingFor(m));
  }

  lemma GlobalAmongRecords(data: bytes, free: Fields, rest: seq<TarRecord>, start: nat, cut: nat)
    requires WritableItem(GlobalItem(data, free)) && AllWellSized(rest) && AllFit(rest, NONE_PENDING)
    ensures AllFit(RecordsOf(GlobalItem(data, free)) + rest, NONE_PENDING)
    ensures Complete(RecordsOf(GlobalItem(data, free)) + rest, start, cut, NONE_PENDING) ==
            Complete(rest, start + ItemSize(GlobalItem(data, free)), cut, NONE_PENDING)
  {
    hide Fits, After, ListedBy, RecordBytes, OctalField;
    var r := MetadataRecord(0x67, data, free);
    GlobalReads(data, free, start + BLOCK);
    LayoutOne(r);
    assert RecordsOf(GlobalItem(data, free)) == [r];
    hide MetadataRecord, RecordsOf, WritableItem;
    assert ([r] + rest)[1..] == rest;
  }

  lemma MemberRecords(m: Member)
    requires Writable(m)
    ensures WellSized(MainRecord(m).fields) && MainRecord(m).data == m.data
    ensures RecordsOf(MemberItem(m)) == Metadata(m) + [MainRecord(m)]
    ensures AllWellSized(Metadata(m))
    ensures LeadsTo(Metadata(m), NONE_PENDING, PendingFor(m))
  {
    MetadataLeads(m);
    MainSized(m);
    assert AllWellSized(RecordsOf(MemberItem(m)));
    assert RecordsOf(MemberItem(m)) == Metadata(m) + [MainRecord(m)];
    hide Metadata, LeadsTo, RecordsOf, PendingFor, WrittenName, Padded;
    forall r | r in Metadata(m) ensures WellSized(r.fields) {
      assert r in RecordsOf(MemberItem(m));
    }
  }

  lemma MemberSize(m: Member)
    requires Writable(m) && WellSized(MainRecord(m).fields)
    ensures ItemSize(MemberItem(m)) == LayoutSize(Metadata(m)) + |RecordBytes(MainRecord(m))|
  {
    hide MainRecord, RecordBytes, Writable, Metadata, RecordsOf, LeadsTo;
    MemberRecords(m);
    LayoutOne(MainRecord(m));
    LayoutConcat(Metadata(m), [MainRecord(m)]);
  }

  lemma MainLists(m: Member, start: nat)
    requires Writable(m)
    ensures Fits(MainRecord(m), PendingFor(m))
    ensures After(MainRecord(m), PendingFor(m)) == Some(NONE_PENDING)
    ensures ListedBy(MainRecord(m), PendingFor(m), start + DataStart(m)) == ListedItem(MemberItem(m), start)
  {
    hide MainRecord, Writable, Metadata, LayoutSize, Fits, After, ListedBy, PendingFor, ExpectedEntry, DataStart;
    MainReads(m, start + DataStart(m));
  }

  /** Cutting an archive anywhere: a cut through a header block (or the first end-of-archive block)
      is reported as truncation, any other cut gives exactly the members that lie before it. */
  lemma CutArchive(items: seq<Item>, endBlocks: nat, cut: nat)
    requires AllWritable(items) && cut <= |Archive(items, endBlocks)| < U64 / 2
    ensures Index(Archive(items, endBlocks)[..cut]) ==
            if CutsHeader(AllRecords(items), 0, cut) then Failed(Truncated)
            else Entries(ListingBefore(items, 0, cut))
  {
    hide AllRecords, Layout, IndexFrom, ListingBefore, CutsHeader, Complete, WritableItem, Zeros, AllFit;
    var records := AllRecords(items);
    RecordsListItems(items, 0, cut);
    var archive := [] + Layout(records) + Zeros(endBlocks * BLOCK);
    assert Archive(items, endBlocks) == archive;
    IndexOfRecords([], records, endBlocks, cut, NONE_PENDING, []);
    assert [] + Complete(records, 0, cut, NONE_PENDING) == ListingBefore(items, 0, cut);
  }

  lemma {:induction false} WholeListing(items: seq<Item>, start: nat, cut: nat)
    requires AllWritable(items) && start + LayoutSize(AllRecords(items)) <= cut
    ensures ListingBefore(items, start, cut) == Listing(items, start)
    decreases |items|
  {
    hide WritableItem, RecordsOf, ListedItem, DataEnd, Layout, RecordBytes;
    if items != [] {
      LayoutConcat(RecordsOf(items[0]), AllRecords(items[1..]));
      DataInsideItem(items[0], start);
      WholeListing(items[1..], start + ItemSize(items[0]), cut);
    }
  }

  lemma DataInsideItem(item: Item, start: nat)
    requires WritableItem(item)
    ensures DataEnd(item, start) <= start + ItemSize(item)
  {
    match item
    case MemberItem(m) => MemberRecords(m); MemberSize(m); hide Writable, RecordsOf, Metadata, MainRecord, LeadsTo,
        PendingFor;
    case GlobalItem(data, free) => LayoutOne(MetadataRecord(0x67, data, free)); hide MetadataRecord;
  }

  lemma {:induction false} EndCutsNoHeader(records: seq<TarRecord>, start: nat, endBlocks: nat)
    requires AllWellSized(records)
    ensures !CutsHeader(records, start, start + LayoutSize(records) + endBlocks * BLOCK)
    decreases |records|
  {
    hide RecordBytes;
    if records != [] { EndCutsNoHeader(records[1..], start + |RecordBytes(records[0])|, endBlocks); }
  }

  /** The round trip: indexing an archive lists its members in order, each as it was given. */
  lemma IndexesArchive(items: seq<Item>, endBlocks: nat)
    requires AllWritable(items) && |Archive(items, endBlocks)| < U64 / 2
    ensures Index(Archive(items, endBlocks)) == Entries(Listing(items, 0))
  {
    hide Index, AllRecords, Layout, ListingBefore, CutsHeader, Listing, WritableItem;
    var archive := Archive(items, endBlocks);
    assert archive[..|archive|] == archive;
    CutArchive(items, endBlocks, |archive|);
    EndCutsNoHeader(AllRecords(items), 0, endBlocks);
    WholeListing(items, 0, |archive|);
  }

  /** An entry stands for a member of the archive, whose data is where the entry says. */
  ghost predicate Locates(e: Entry, items: seq<Item>, archive: bytes)
    requires AllWritable(items)
  {
    exists i :: 0 <= i < |items| && items[i].MemberItem? && LocatesMember(e, items[i].member, archive)
  }

  predicate LocatesMember(e: Entry, m: Member, archive: bytes) {
    && e == ExpectedEntry(m, e.offset)
    && e.offset + |m.data| <= |archive|
    && archive[e.offset..e.offset + |m.data|] == m.data
  }

  lemma MiddleOfNested(before: bytes, lead: bytes, header: bytes, data: bytes, padding: bytes, after: bytes)
    ensures var offset := |before| + |lead| + |header|;
            (before + (lead + (header + data + padding)) + after)[offset..offset + |data|] == data
  {
    var front := before + lead + header;
    assert before + (lead + (header + data + padding)) + after == front + data + (padding + after);
    MiddleOf(front + data + (padding + after), front, data, padding + after);
  }

  lemma Regrouped(before: bytes, own: bytes, rest: bytes, after: bytes)
    ensures before + (own + rest) + after == before + own + (rest + after)
    ensures before + (own + rest) + after == (before + own) + rest + after
  {
  }

  lemma RecordBytesAre(r: TarRecord)
    requires WellSized(r.fields)
    ensures RecordBytes(r) == HeaderBlock(r.fields) + r.data + Zeros(PadTo(|r.data|))
    ensures |HeaderBlock(r.fields)| == BLOCK
  {
    hide HeaderBlock;
  }

  /** The data of the last of some records in a row. */
  lemma LastDataAt(before: bytes, lead: seq<TarRecord>, last: TarRecord, after: bytes)
    requires AllWellSized(lead) && WellSized(last.fields) && AllWellSized(lead + [last])
    ensures var offset := |before| + LayoutSize(lead) + BLOCK;
            var archive := before + Layout(lead + [last]) + after;
            offset + |last.data| <= |archive| && archive[offset..offset + |last.data|] == last.data
  {
    hide RecordBytes, HeaderBlock, Layout;
    RecordBytesAre(last);
    LayoutOne(last);
    LayoutConcat(lead, [last]);
    MiddleOfNested(before, Layout(lead), HeaderBlock(last.fields), last.data, Zeros(PadTo(|last.data|)), after);
  }

  lemma ItemLocated(before: bytes, item: Item, after: bytes, e: Entry)
    requires WritableItem(item) && e in ListedItem(item, |before|)
    ensures item.MemberItem? && LocatesMember(e, item.member, before + Layout(RecordsOf(item)) + after)
  {
    hide Writable, RecordsOf, Metadata, MainRecord, LeadsTo, PendingFor, Layout, RecordBytes;
    var m := item.member;
    MemberRecords(m);
    LastDataAt(before, Metadata(m), MainRecord(m), after);
  }

  lemma {:induction false} ListingLocated(before: bytes, items: seq<Item>, after: bytes, e: Entry)
    requires AllWritable(items) && e in Listing(items, |before|)
    ensures Locates(e, items, before + Layout(AllRecords(items)) + after)
    decreases |items|
  {
    hide WritableItem, RecordsOf, ListedItem, LocatesMember, Layout;
    var own := Layout(RecordsOf(items[0]));
    var rest := Layout(AllRecords(items[1..]));
    LayoutConcat(RecordsOf(items[0]), AllRecords(items[1..]));
    Regrouped(before, own, rest, after);
    var archive := before + (own + rest) + after;
    if e in ListedItem(items[0], |before|) {
      ItemLocated(before, items[0], rest + after, e);
    } else {
      ListingLocated(before + own, items[1..], after, e);
      var i :| 0 <= i < |items[1..]| && items[1..][i].MemberItem? && LocatesMember(e, items[1..][i].member, archive);
      assert items[i + 1] == items[1..][i];
    }
  }

  /** Every entry listed for an archive points at its own member's bytes. */
  lemma EntriesLocateData(items: seq<Item>, endBlocks: nat, e: Entry)
    requires AllWritable(items) && e in Listing(items, 0)
    ensures Locates(e, items, Archive(items, endBlocks))
  {
    hide Layout, AllRecords, Locates, Listing, WritableItem;
    assert Archive(items, endBlocks) == [] + Layout(AllRecords(items)) + Zeros(endBlocks * BLOCK);
    ListingLocated([], items, Zeros(endBlocks * BLOCK), e);
  }
}
