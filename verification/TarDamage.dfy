/** Headers the reader must refuse: one with a byte changed, and one that announces too much metadata. */
module TarDamage {
  import opened Wrappers
  import opened Bytes
  import opened TarArchive
  import opened TarPax
  import opened TarWriter
  import opened TarRoundTrip

  // ---------------------------------------------------------------- one byte of a header

  lemma {:induction false} SumChanges(s: bytes, i: nat, b: byte)
    requires i < |s|
    ensures ByteSum(s[i := b]) == ByteSum(s) - s[i] + b
    decreases |s|
  {
    var t := s[i := b];
    var n := |s| - 1;
    if i == n {
      assert t[..n] == s[..n];
    } else {
      assert t[..n] == s[..n][i := b];
      SumChanges(s[..n], i, b);
    }
  }

  /** A written header with a byte changed, outside the checksum's own eight. */
  lemma DamageShows(f: Fields, i: nat, b: byte)
    requires WellSized(f) && i < 512 && !(148 <= i < 156) && b != HeaderBlock(f)[i]
    ensures var damaged: Header := HeaderBlock(f)[i := b]; !IsZeroBlock(damaged) && !ChecksumValid(damaged)
  {
    hide ByteSum, Number;
    HeaderReads(f);
    var h := HeaderBlock(f);
    ChecksumDigit(f);
    hide HeaderBlock;
    var damaged: Header := h[i := b];
    assert damaged[148] == h[148] != 0;
    assert damaged[148..156] == h[148..156];
    if i < 148 {
      assert damaged[..148] == h[..148][i := b] && damaged[156..] == h[156..];
      SumChanges(h[..148], i, b);
    } else {
      assert damaged[..148] == h[..148] && damaged[156..] == h[156..][i - 156 := b];
      SumChanges(h[156..], i - 156, b);
    }
  }

  lemma ChecksumDigit(f: Fields)
    requires WellSized(f)
    ensures HeaderBlock(f)[148] != 0
  {
    hide ByteSum;
    var sum := ByteSum(Front(f)) + 8 * 0x20 + ByteSum(Back(f));
    OctalDigitsAreDigits(sum, 6);
    assert HeaderBlock(f)[148] == OctalDigits(sum, 6)[0];
  }

  // ---------------------------------------------------------------- the records before it

  /** Two files agree up to a place. */
  predicate SameUpTo(file: bytes, archive: bytes, at: nat) {
    at <= |file| == |archive| && file[..at] == archive[..at]
  }

  /** The reader refuses the header at this place. */
  predicate Refused(file: bytes, at: nat) {
    && at + BLOCK <= |file|
    && var header: Header := file[at..at + BLOCK]; !IsZeroBlock(header) && !ChecksumValid(header)
  }

  lemma RefusedHere(file: bytes, at: nat, pending: Pending, entries: seq<Entry>)
    requires Refused(file, at) && |file| < U64 / 2
    ensures IndexFrom(file, at, pending, entries)
         == Failed(if entries == [] then NotATar else CorruptHeader(at))
  {
    hide IsZeroBlock, ChecksumValid;
  }

  /** A record before the damage is read as if there were none. */
  lemma PastSoundRecord(file: bytes, before: bytes, r: TarRecord, after: bytes, at: nat, pending: Pending,
                        entries: seq<Entry>)
    requires Fits(r, pending) && After(r, pending).Some?
    requires SameUpTo(file, before + RecordBytes(r) + after, at) && |file| < U64 / 2
    requires |before + RecordBytes(r)| <= at
    ensures IndexFrom(file, |before|, pending, entries)
         == IndexFrom(file, |before + RecordBytes(r)|, After(r, pending).value,
                      entries + ListedBy(r, pending, |before| + BLOCK))
  {
    hide HeaderBlock, Fits, After, ListedBy, StepIndex, RecordBytes;
    var archive := before + RecordBytes(r) + after;
    var dataOffset := |before| + BLOCK;
    RecordSize(r);
    RecordInCut(before, r, after, at);
    SliceOf(file, at, |before|, dataOffset);
    SliceOf(file, at, dataOffset, dataOffset + |r.data|);
    StepAtRecord(file, |before|, r, pending, entries);
  }

  lemma SliceOf(s: bytes, at: nat, i: nat, j: nat)
    requires i <= j <= at <= |s|
    ensures s[..at][i..j] == s[i..j]
  {
  }

  lemma {:induction false} RefusedAfter(file: bytes, before: bytes, records: seq<TarRecord>, k: nat, after: bytes,
                                        pending: Pending, entries: seq<Entry>)
    requires AllWellSized(records) && AllFit(records, pending) && k <= |records|
    requires var at := |before| + LayoutSize(records[..k]);
             SameUpTo(file, before + Layout(records) + after, at) && Refused(file, at) && |file| < U64 / 2
    ensures var at := |before| + LayoutSize(records[..k]);
            IndexFrom(file, |before|, pending, entries) ==
            Failed(if entries + Complete(records, |before|, at, pending) == [] then NotATar else CorruptHeader(at))
    decreases k
  {
    hide StepIndex, RecordBytes, ListedBy, After, Fits, Layout, WellSized, Refused, IndexFrom;
    var at := |before| + LayoutSize(records[..k]);
    if k == 0 {
      assert records[..0] == [];
      NothingLaid();
      NothingPastCut(records, at, at, pending);
      assert entries + [] == entries;
      RefusedHere(file, at, pending, entries);
    } else {
      var r, rest := records[0], records[1..];
      LayoutFirst(records);
      LayoutFirst(records[..k]);
      assert records[..k][1..] == rest[..k - 1] && records[..k][0] == r;
      Regrouped(before, RecordBytes(r), Layout(rest), after);
      PastSoundRecord(file, before, r, Layout(rest) + after, at, pending, entries);
      var listed := ListedBy(r, pending, |before| + BLOCK);
      RefusedAfter(file, before + RecordBytes(r), rest, k - 1, after, After(r, pending).value, entries + listed);
      var more := Complete(rest, |before + RecordBytes(r)|, at, After(r, pending).value);
      assert |before| + BLOCK + |r.data| <= at by { RecordSize(r); }
      assert Complete(records, |before|, at, pending) == listed + more;
      assert entries + (listed + more) == (entries + listed) + more;
    }
  }

  lemma RecordSize(r: TarRecord)
    requires WellSized(r.fields)
    ensures BLOCK + |r.data| <= |RecordBytes(r)|
  {
  }

  /** The k-th record's header stands where the records before it end. */
  lemma {:induction false} HeaderAt(records: seq<TarRecord>, k: nat)
    requires AllWellSized(records) && k < |records|
    ensures AllWellSized(records[..k])
    ensures var at := LayoutSize(records[..k]);
            at + BLOCK <= |Layout(records)| && Layout(records)[at..at + BLOCK] == HeaderBlock(records[k].fields)
  {
    hide RecordBytes, HeaderBlock, WellSized, Layout;
    var r, more := records[k], records[k + 1..];
    assert records == records[..k] + ([r] + more);
    LayoutConcat(records[..k], [r] + more);
    LayoutFirst([r] + more);
    assert ([r] + more)[1..] == more;
    RecordBytesAre(r);
    HeaderInMiddle(Layout(records[..k]), HeaderBlock(r.fields), r.data, Zeros(PadTo(|r.data|)), Layout(more));
  }

  lemma HeaderInMiddle(lead: bytes, header: bytes, data: bytes, padding: bytes, more: bytes)
    ensures var all := lead + ((header + data + padding) + more);
            |lead| + |header| <= |all| && all[|lead|..|lead| + |header|] == header
  {
    assert lead + ((header + data + padding) + more) == lead + header + (data + padding + more);
    MiddleOf(lead + ((header + data + padding) + more), lead, header, data + padding + more);
  }

  /** Where the header of the k-th record of an archive begins. */
  function HeaderPlace(items: seq<Item>, k: nat): nat
    requires AllWritable(items) && k < |AllRecords(items)|
  {
    LayoutSize(AllRecords(items)[..k])
  }

  /** Whichever header block of an archive has one byte changed, outside the eight of its checksum, indexing refuses the
      file at that block: as no archive at all if no entry precedes it, and as corrupt there otherwise. */
  lemma DamagedArchive(items: seq<Item>, endBlocks: nat, k: nat, i: nat, b: byte)
    requires AllWritable(items) && |Archive(items, endBlocks)| < U64 / 2
    requires k < |AllRecords(items)| && i < 512 && !(148 <= i < 156)
    ensures var archive, at := Archive(items, endBlocks), HeaderPlace(items, k);
            && at + 512 <= |archive|
            && (b != archive[at + i] ==>
                  Index(archive[at + i := b])
                  == Failed(if ListingBefore(items, 0, at) == [] then NotATar else CorruptHeader(at)))
  {
    hide AllRecords, Layout, IndexFrom, ListingBefore, Complete, WritableItem, Zeros, AllFit, HeaderBlock, IsZeroBlock,
         ChecksumValid, WellSized;
    var records, after := AllRecords(items), Zeros(endBlocks * BLOCK);
    var archive, at := Archive(items, endBlocks), HeaderPlace(items, k);
    HeaderAt(records, k);
    if b != archive[at + i] {
      var file := archive[at + i := b];
      var f := records[k].fields;
      assert archive == [] + Layout(records) + after;
      assert archive[at..at + BLOCK] == Layout(records)[at..at + BLOCK] == HeaderBlock(f);
      assert file[at..at + BLOCK] == HeaderBlock(f)[i := b];
      assert file[..at] == archive[..at];
      DamageShows(f, i, b);
      RecordsListItems(items, 0, at);
      RefusedAfter(file, [], records, k, after, NONE_PENDING, []);
      assert [] + Complete(records, 0, at, NONE_PENDING) == ListingBefore(items, 0, at);
    }
  }

  // ---------------------------------------------------------------- one byte of the end

  lemma {:induction false} SumOfZeros(n: nat)
    ensures ByteSum(Zeros(n)) == 0
  {
    if n > 0 {
      assert Zeros(n)[..n - 1] == Zeros(n - 1);
      SumOfZeros(n - 1);
    }
  }

  /** No field of eight bytes, all zero but one, writes down the sum of eight spaces. */
  lemma NoSuchNumber(i: nat, b: byte)
    requires i < 8
    ensures Number(Zeros(8)[i := b]) != 256
  {
    var field := Zeros(8)[i := b];
    if i == 0 && b >= 0x80 {
      assert field[1..] == Zeros(7);
      TwoLowBytes(7, b - 0x80);
    } else if i == 0 {
      var rest := field[1..];
      assert rest[0] == 0;
      assert forall v: nat | v < 8 :: Octal(rest, v) == v;
      assert Number(field) == Octal(field, 0);
      assert b == 0x20 ==> Octal(field, 0) == Octal(rest, 0);
      assert 0x30 <= b <= 0x37 ==> Octal(field, 0) == Octal(rest, b - 0x30);
    } else {
      assert field[0] == 0;
    }
  }

  lemma {:induction false} TwoLowBytes(n: nat, value: nat)
    requires n >= 2 && value < U64
    ensures Base256(Zeros(n), value) % 0x10000 == 0
  {
    var next := value * 256 % U64;
    ZeroStep(n, value);
    if n > 2 {
      TwoLowBytes(n - 1, next);
    } else {
      ZeroStep(1, next);
      LowByte(value);
      LowByte(next);
    }
  }

  lemma ZeroStep(n: nat, value: nat)
    requires n > 0 && value < U64
    ensures Base256(Zeros(n), value) == Base256(Zeros(n - 1), value * 256 % U64)
    ensures Base256(Zeros(0), value) == value
  {
    assert Zeros(n)[1..] == Zeros(n - 1);
  }

  lemma LowByte(value: nat)
    ensures value * 256 % U64 % 256 == 0
    ensures value % 256 == 0 ==> value * 256 % U64 % 0x10000 == 0
  {
    var q := value * 256 / U64;
    assert value * 256 % U64 == 256 * (value - q * 0x100_0000_0000_0000);
    if value % 256 == 0 {
      assert value * 256 % U64 == 0x10000 * (value / 256 - q * 0x1_0000_0000_0000);
    }
  }

  lemma ZerosDamaged(i: nat, b: byte)
    requires i < 512 && b != 0
    ensures var damaged: Header := Zeros(512)[i := b]; !IsZeroBlock(damaged) && !ChecksumValid(damaged)
  {
    hide ByteSum, Number;
    var damaged: Header := Zeros(512)[i := b];
    assert damaged[i] != 0;
    SumOfZeros(148);
    SumOfZeros(356);
    if i < 148 {
      assert damaged[..148] == Zeros(148)[i := b] && damaged[156..] == Zeros(356);
      SumChanges(Zeros(148), i, b);
      assert damaged[148..156] == Zeros(8)[0 := 0];
      NoSuchNumber(0, 0);
      SmallNumber();
    } else if i < 156 {
      assert damaged[..148] == Zeros(148) && damaged[156..] == Zeros(356);
      assert damaged[148..156] == Zeros(8)[i - 148 := b];
      NoSuchNumber(i - 148, b);
    } else {
      assert damaged[..148] == Zeros(148) && damaged[156..] == Zeros(356)[i - 156 := b];
      SumChanges(Zeros(356), i - 156, b);
      assert damaged[148..156] == Zeros(8)[0 := 0];
      SmallNumber();
    }
  }

  lemma SmallNumber()
    ensures Number(Zeros(8)[0 := 0]) == 0
  {
  }

  /** A block that should end an archive is one only if all its bytes are zero: with any one of them changed the reader
      takes it for a header, and refuses it. */
  lemma DamagedEnd(items: seq<Item>, endBlocks: nat, i: nat, b: byte)
    requires AllWritable(items) && |Archive(items, endBlocks)| < U64 / 2
    requires endBlocks > 0 && i < 512 && b != 0
    ensures var archive, at := Archive(items, endBlocks), LayoutSize(AllRecords(items));
            && at + 512 <= |archive|
            && Index(archive[at + i := b])
               == Failed(if ListingBefore(items, 0, at) == [] then NotATar else CorruptHeader(at))
  {
    hide AllRecords, Layout, IndexFrom, ListingBefore, Complete, WritableItem, AllFit, IsZeroBlock, ChecksumValid,
         WellSized;
    var records, after := AllRecords(items), Zeros(endBlocks * BLOCK);
    var archive, at := Archive(items, endBlocks), LayoutSize(records);
    var file := archive[at + i := b];
    assert archive == [] + Layout(records) + after;
    assert file[at..at + BLOCK] == Zeros(512)[i := b];
    assert file[..at] == archive[..at];
    ZerosDamaged(i, b);
    RecordsListItems(items, 0, at);
    assert records[..|records|] == records;
    RefusedAfter(file, [], records, |records|, after, NONE_PENDING, []);
    assert [] + Complete(records, 0, at, NONE_PENDING) == ListingBefore(items, 0, at);
  }

  /** No entry precedes the first header. */
  lemma FirstHeader(items: seq<Item>)
    requires AllWritable(items) && AllRecords(items) != []
    ensures HeaderPlace(items, 0) == 0 && ListingBefore(items, 0, 0) == []
  {
    hide AllRecords, Layout, Complete, WritableItem, AllFit, ListingBefore;
    assert AllRecords(items)[..0] == [];
    NothingLaid();
    RecordsListItems(items, 0, 0);
    NothingPastCut(AllRecords(items), 0, 0, NONE_PENDING);
  }

  // ---------------------------------------------------------------- too much metadata

  /** A long name, a long link or pax records of more than a mebibyte are refused without being read, wherever in a
      file the reader comes to their header. */
  lemma MetadataTooLong(file: bytes, position: nat, flag: byte, data: bytes, free: Fields, pending: Pending,
                        entries: seq<Entry>)
    requires flag == 0x4C || flag == 0x4B || flag == 0x78
    requires WellSized(free) && 1048576 < |data| < Pow8(11)
    requires position + BLOCK + |data| <= |file| < U64 / 2
    requires file[position..position + BLOCK] == HeaderBlock(MetadataRecord(flag, data, free).fields)
    ensures IndexFrom(file, position, pending, entries) == Failed(CorruptHeader(position))
  {
    hide HeaderBlock, IsZeroBlock, ChecksumValid, Number;
    MetadataSized(flag, data, free);
    HeaderReads(MetadataRecord(flag, data, free).fields);
  }
}
