/** A writer of the ustar, GNU and pax formats (POSIX.1-2017, `pax` utility, EXTENDED DESCRIPTION):
    the reference the index is measured against. Everything a real writer may fill in freely
    (owners, devices, times of metadata records, junk short names) is a parameter. */
module TarWriter {
  import opened Wrappers
  import opened Bytes
  import opened TarArchive
  import opened TarPax

  // ---------------------------------------------------------------- numbers

  function Pow8(n: nat): (p: nat)
    ensures p > 0
  {
    if n == 0 then 1 else 8 * Pow8(n - 1)
  }

  function OctalDigits(value: nat, width: nat): (r: bytes)
    ensures |r| == width
  {
    if width == 0 then [] else OctalDigits(value / 8, width - 1) + [0x30 + value % 8]
  }

  lemma {:induction false} OctalReads(value: nat, width: nat, tail: bytes)
    requires value < Pow8(width) <= U64
    ensures Octal(OctalDigits(value, width) + tail, 0) == Octal(tail, value)
  {
    if width == 0 {
      assert [] + tail == tail;
    } else {
      var digit: byte := 0x30 + value % 8;
      OctalReads(value / 8, width - 1, [digit] + tail);
      assert OctalDigits(value, width) + tail == OctalDigits(value / 8, width - 1) + ([digit] + tail);
      assert ([digit] + tail)[1..] == tail;
    }
  }

  /** Octal text, a NUL, then anything. */
  function OctalField(value: nat, width: nat, tail: bytes): bytes {
    OctalDigits(value, width) + [0] + tail
  }

  lemma OctalFieldReads(value: nat, width: nat, tail: bytes)
    requires 0 < width && value < Pow8(width) <= U64
    ensures Number(OctalField(value, width, tail)) == value
  {
    OctalReads(value, width, [0] + tail);
    assert OctalField(value, width, tail) == OctalDigits(value, width) + ([0] + tail);
    OctalDigitsAreDigits(value, width);
  }

  lemma {:induction false} OctalDigitsAreDigits(value: nat, width: nat)
    ensures forall i :: 0 <= i < width ==> 0x30 <= OctalDigits(value, width)[i] <= 0x37
  {
    if width > 0 { OctalDigitsAreDigits(value / 8, width - 1); }
  }

  function BigEndian(value: nat, width: nat): (r: bytes)
    ensures |r| == width
  {
    if width == 0 then [] else BigEndian(value / 256, width - 1) + [value % 256]
  }

  function Pow256(n: nat): (p: nat)
    ensures p > 0
  {
    if n == 0 then 1 else 256 * Pow256(n - 1)
  }

  lemma {:induction false} Base256Reads(value: nat, width: nat, tail: bytes)
    requires value < Pow256(width) <= U64
    ensures Base256(BigEndian(value, width) + tail, 0) == Base256(tail, value)
  {
    if width == 0 {
      assert [] + tail == tail;
    } else {
      var last: byte := value % 256;
      Base256Reads(value / 256, width - 1, [last] + tail);
      assert BigEndian(value, width) + tail == BigEndian(value / 256, width - 1) + ([last] + tail);
      assert ([last] + tail)[1..] == tail;
    }
  }

  /** GNU's binary form in a twelve-byte field. */
  function Base256Field(value: nat): (r: bytes)
    ensures |r| == 12
  {
    [0x80, 0, 0, 0] + BigEndian(value, 8)
  }

  lemma Base256FieldReads(value: nat)
    requires value < U64
    ensures Number(Base256Field(value)) == value
  {
    var field := Base256Field(value);
    assert Pow256(8) == U64 by {
      assert Pow256(4) == 0x1_0000_0000;
      assert Pow256(8) == 256 * (256 * (256 * (256 * Pow256(4))));
    }
    hide BigEndian, Base256, Pow256;
    Base256Reads(value, 8, []);
    assert BigEndian(value, 8) + [] == BigEndian(value, 8);
    var b := BigEndian(value, 8);
    NothingMore(value);
    ZeroByteAdds(b);
    ZeroByteAdds([0] + b);
    ZeroByteAdds([0] + ([0] + b));
    assert field[1..] == [0] + ([0] + ([0] + b));
  }

  lemma NothingMore(value: nat)
    requires value < U64
    ensures Base256([], value) == value
  {
  }

  /** A time: in octal where that will do, and in GNU's binary form, as a two's complement number, where not. */
  function TimeField(time: int): (r: bytes)
    requires -0x8000_0000_0000_0000 <= time < 0x8000_0000_0000_0000
    ensures |r| == 12
  {
    if 0 <= time < Pow8(11) then OctalField(time, 11, [])
    else if time >= 0 then Base256Field(time)
    else [0xFF, 0xFF, 0xFF, 0xFF] + BigEndian(time + U64, 8)
  }

  lemma ZeroByteAdds(s: bytes)
    ensures Base256([0] + s, 0) == Base256(s, 0)
  {
    assert ([0] + s)[1..] == s;
  }

  // ---------------------------------------------------------------- header blocks

  /** A header's parts in order; the checksum field between `time` and `flag` is computed. */
  datatype Fields = Fields(name: bytes, ids: bytes, size: bytes, time: bytes, flag: byte, link: bytes,
                           magic: bytes, middle: bytes, prefix: bytes, tail: bytes)

  predicate WellSized(f: Fields) {
    && |f.name| == 100 && |f.ids| == 24 && |f.size| == 12 && |f.time| == 12
    && |f.link| == 100 && |f.magic| == 5 && |f.middle| == 83 && |f.prefix| == 155 && |f.tail| == 12
  }

  function Front(f: Fields): bytes { f.name + f.ids + f.size + f.time }
  function Back(f: Fields): bytes { [f.flag] + f.link + f.magic + f.middle + f.prefix + f.tail }

  function HeaderBlock(f: Fields): Header
    requires WellSized(f)
  {
    Front(f) + OctalField(ByteSum(Front(f)) + 8 * 0x20 + ByteSum(Back(f)), 6, [0x20]) + Back(f)
  }

  lemma {:induction false} ByteSumBound(s: bytes)
    ensures ByteSum(s) <= 255 * |s|
  {
    if s != [] { ByteSumBound(s[..|s| - 1]); }
  }

  /** What the reader sees in a written header: a valid checksum, not the end-of-archive block, and
      the fields where it looks for them. */
  lemma HeaderReads(f: Fields)
    requires WellSized(f)
    ensures var h := HeaderBlock(f);
            ChecksumValid(h) && !IsZeroBlock(h) && h[156] == f.flag &&
            h[0..100] == f.name && h[124..136] == f.size && h[136..148] == f.time &&
            h[157..257] == f.link && h[257..262] == f.magic && h[345..500] == f.prefix
  {
    var h := HeaderBlock(f);
    var sum := ByteSum(Front(f)) + 8 * 0x20 + ByteSum(Back(f));
    assert h[..148] == Front(f);
    assert h[156..] == Back(f);
    assert h[148..156] == OctalField(sum, 6, [0x20]);
    ByteSumBound(Front(f));
    ByteSumBound(Back(f));
    assert Pow8(6) == 262144;
    OctalFieldReads(sum, 6, [0x20]);
    OctalDigitsAreDigits(sum, 6);
    assert h[148] == OctalDigits(sum, 6)[0];
  }

  // ---------------------------------------------------------------- records

  datatype TarRecord = TarRecord(fields: Fields, data: bytes)

  function PadTo(n: nat): nat { (n + 511) / 512 * 512 - n }

  function RecordBytes(r: TarRecord): (b: bytes)
    requires WellSized(r.fields)
    ensures |b| == BLOCK + |r.data| + PadTo(|r.data|)
  {
    HeaderBlock(r.fields) + r.data + Zeros(PadTo(|r.data|))
  }

  predicate AllWellSized(records: seq<TarRecord>) { forall r :: r in records ==> WellSized(r.fields) }

  function Layout(records: seq<TarRecord>): bytes
    requires AllWellSized(records)
  {
    if records == [] then [] else RecordBytes(records[0]) + Layout(records[1..])
  }

  // ---------------------------------------------------------------- members

  datatype NameForm = InName | InPrefix(split: nat) | InGnuName | InPaxName(gnuName: bytes)
  datatype LinkForm = InLinkField | InGnuLink | InPaxLink
  datatype SizeForm = OctalSize | Base256Size | PaxSize(recorded: nat)

  /** An old folder is one of the formats before ustar: a plain file's flag and a slash at the end of the name. */
  datatype Kind = Plain(flag: byte) | Folder | OldFolder(flag: byte) | SymbolicLink | HardLink | Special(flag: byte)

  /** A member as the archiver was given it. `dots` and `slashes` are the "./" it puts before a name
      and the "/" it puts after a folder's; `keywords` are further pax records. A pax path goes before a
      GNU long name, a GNU long link before a pax link path, and both before the header's own fields. */
  datatype Member = Member(path: bytes, dots: nat, slashes: nat, kind: Kind, data: bytes, time: int,
                           target: bytes, nameForm: NameForm, linkForm: LinkForm, sizeForm: SizeForm,
                           keywords: seq<(bytes, bytes)>, free: Fields, freeMetadata: Fields)

  datatype Item = MemberItem(member: Member) | GlobalItem(data: bytes, free: Fields)

  function FlagOf(kind: Kind): byte {
    match kind
    case Plain(flag) => flag
    case OldFolder(flag) => flag
    case Folder => 0x35
    case SymbolicLink => 0x32
    case HardLink => 0x31
    case Special(flag) => flag
  }

  predicate ValidKind(kind: Kind) {
    match kind
    case Plain(flag) => flag == 0x30 || flag == 0 || flag == 0x37
    case OldFolder(flag) => flag == 0x30 || flag == 0 || flag == 0x37
    case Special(flag) => flag !in {0, 0x30, 0x31, 0x32, 0x35, 0x37} && flag !in {0x4B, 0x4C, 0x67, 0x78}
    case _ => true
  }

  /** The kinds whose header is followed by data. */
  predicate Carries(kind: Kind) { kind.Plain? || kind.OldFolder? || kind.Special? }

  lemma CarriesIsData(kind: Kind)
    requires ValidKind(kind)
    ensures Carries(kind) <==> HasData(FlagOf(kind))
    ensures !IsMetadata(FlagOf(kind)) && FlagOf(kind) != 0x67
  {
  }

  /** A path as it should be listed: relative, without a leading "./" and without a slash at an end.
      Only a folder's path may be empty: the top of the archive, which is not listed. */
  predicate CanonicalPath(m: Member) {
    && 0 !in m.path
    && (m.path == [] ==> m.kind == Folder)
    && (m.path != [] ==> m.path[0] != 0x2F && m.path[|m.path| - 1] != 0x2F)
    && !StartsDotSlash(m.path) && m.path != [0x2E]
    && (m.kind.OldFolder? ==> m.slashes > 0)
    && (m.kind != Folder && !m.kind.OldFolder? ==> m.slashes == 0)
  }

  function WrittenName(m: Member): bytes {
    Repeat([0x2E, 0x2F], m.dots) + (m.path + Repeat([0x2F], m.slashes))
  }

  function Padded(s: bytes, width: nat): bytes
    requires |s| <= width
  {
    s + Zeros(width - |s|)
  }

  function Ascii(text: string): bytes
    requires forall i | 0 <= i < |text| :: text[i] < 128 as char
  {
    seq(|text|, i requires 0 <= i < |text| => text[i] as byte)
  }

  /** The reader knows the writer's keywords. */
  lemma KeywordsAre()
    ensures Ascii("path") == PATH && Ascii("linkpath") == LINKPATH && Ascii("size") == SIZE
    ensures Ascii("ustar") == USTAR
  {
  }

  /** A further pax record does not say what the reader takes from elsewhere: a link path may stand beside a GNU long
      link, and a size before another one or if it cannot be read as a number. */
  predicate MayRecord(m: Member, keyword: bytes, value: bytes) {
    && keyword != Ascii("path")
    && (keyword == Ascii("linkpath") ==> m.linkForm == InGnuLink)
    && (keyword == Ascii("size") ==> Carries(m.kind) && (m.sizeForm.PaxSize? || Stoull(value) == None))
  }

  /** A GNU long name to be recorded: the member's own, or one that a pax path overrides. */
  function GnuName(m: Member): bytes {
    match m.nameForm
    case InGnuName => WrittenName(m)
    case InPaxName(gnuName) => gnuName
    case _ => []
  }

  function PaxKeywords(m: Member): seq<(bytes, bytes)> {
    m.keywords
    + (if m.nameForm.InPaxName? then [(Ascii("path"), WrittenName(m))] else [])
    + (if m.linkForm == InPaxLink then [(Ascii("linkpath"), m.target)] else [])
    + (if m.sizeForm.PaxSize? then [(Ascii("size"), Decimal(|m.data|))] else [])
  }

  /** What a writer of these formats can record. */
  predicate Writable(m: Member) {
    && ValidKind(m.kind) && CanonicalPath(m) && 0 !in m.target
    && WellSized(m.free) && WellSized(m.freeMetadata)
    && -0x8000_0000_0000_0000 <= m.time < 0x8000_0000_0000_0000
    && |m.data| < U64 / 2
    && (!Carries(m.kind) ==> m.data == [] && m.sizeForm == OctalSize)
    && (match m.sizeForm
        case OctalSize => |m.data| < Pow8(11)
        case Base256Size => true
        case PaxSize(recorded) => recorded <= |m.data| && recorded < Pow8(11))
    && (match m.nameForm
        case InName => |WrittenName(m)| <= 100
        case InPrefix(split) => 0 < split <= 155 && split < |WrittenName(m)| <= split + 101 &&
                                WrittenName(m)[split] == 0x2F
        case InGnuName => 0 < |WrittenName(m)| < 1048576
        case InPaxName(gnuName) => 0 !in gnuName && |gnuName| < 1048576)
    && (match m.linkForm
        case InLinkField => |m.target| <= 100
        case InGnuLink => 0 < |m.target| < 1048576
        case InPaxLink => true)
    && (forall k :: 0 <= k < |m.keywords| ==>
          0x3D !in m.keywords[k].0 && MayRecord(m, m.keywords[k].0, m.keywords[k].1))
    && |WritePax(PaxKeywords(m))| <= 1048576
  }

  predicate WritableItem(item: Item) {
    match item
    case MemberItem(m) => Writable(m)
    case GlobalItem(data, free) => WellSized(free) && |data| < Pow8(11)
  }

  function MetadataRecord(flag: byte, data: bytes, free: Fields): (r: TarRecord)
    ensures WellSized(free) ==> WellSized(r.fields)
  {
    TarRecord(free.(flag := flag, size := OctalField(|data|, 11, [])), data)
  }

  /** The free fields with the name where it goes. */
  function NamedFields(m: Member): (f: Fields)
    requires Writable(m)
    ensures WellSized(f)
  {
    match m.nameForm
    case InName => m.free.(name := Padded(WrittenName(m), 100), prefix := Zeros(155))
    case InPrefix(split) => SplitName(m.free, WrittenName(m), split)
    case _ => m.free
  }

  /** The part of a name before a slash in one field, and the part after it in another. */
  function SplitName(free: Fields, written: bytes, split: nat): (f: Fields)
    requires 0 < split <= 155 && split < |written| <= split + 101
    ensures WellSized(free) ==> WellSized(f)
  {
    free.(name := Padded(written[split + 1..], 100), magic := Ascii("ustar"), prefix := Padded(written[..split], 155))
  }

  function MainRecord(m: Member): (r: TarRecord)
    requires Writable(m)
    ensures WellSized(r.fields)
  {
    var named := NamedFields(m);
    var sized := if !Carries(m.kind) then named else
      match m.sizeForm
      case OctalSize => named.(size := OctalField(|m.data|, 11, []))
      case Base256Size => named.(size := Base256Field(|m.data|))
      case PaxSize(recorded) => named.(size := OctalField(recorded, 11, []));
    TarRecord(sized.(time := TimeField(m.time), flag := FlagOf(m.kind),
                  link := if m.linkForm == InLinkField then Padded(m.target, 100) else m.free.link), m.data)
  }

  /** A GNU long link, a GNU long name and a pax header, as needed, then the member's own header. */
  function Metadata(m: Member): (records: seq<TarRecord>)
    ensures WellSized(m.freeMetadata) ==> AllWellSized(records)
  {
    (if m.linkForm == InGnuLink then [MetadataRecord(0x4B, m.target + [0], m.freeMetadata)] else [])
    + (if GnuName(m) != [] then [MetadataRecord(0x4C, GnuName(m) + [0], m.freeMetadata)] else [])
    + (if PaxKeywords(m) != [] then [MetadataRecord(0x78, WritePax(PaxKeywords(m)), m.freeMetadata)] else [])
  }

  function RecordsOf(item: Item): (records: seq<TarRecord>)
    requires WritableItem(item)
    ensures AllWellSized(records)
  {
    match item
    case MemberItem(m) => Metadata(m) + [MainRecord(m)]
    case GlobalItem(data, free) => [MetadataRecord(0x67, data, free)]
  }

  predicate AllWritable(items: seq<Item>) { forall i :: 0 <= i < |items| ==> WritableItem(items[i]) }

  function AllRecords(items: seq<Item>): (records: seq<TarRecord>)
    requires AllWritable(items)
    ensures AllWellSized(records)
  {
    if items == [] then [] else RecordsOf(items[0]) + AllRecords(items[1..])
  }

  /** The archive: the items' records and any number of end-of-archive blocks (a writer puts two). */
  function Archive(items: seq<Item>, endBlocks: nat): bytes
    requires AllWritable(items)
  {
    Layout(AllRecords(items)) + Zeros(endBlocks * BLOCK)
  }
}
