/** Archives on which the index does what its format does not mean. */
module TarEdgeCases {
  import opened Wrappers
  import opened Bytes
  import opened TarArchive
  import opened TarPax
  import opened TarWriter
  import opened TarNumbers
  import opened TarRoundTrip

  // ---------------------------------------------------------------- an archive that is never indexed

  /** A pax header whose two records send the reader back and forth. */
  function BackwardFile(free: Fields): bytes
    requires WellSized(free)
  {
    RecordBytes(MetadataRecord(0x78, BACKWARD, free))
  }

  /** Indexing that file of 1024 bytes never ends. */
  lemma BackwardFileHangs(free: Fields)
    requires WellSized(free)
    ensures |BackwardFile(free)| == 1024 && Index(BackwardFile(free)) == Hangs
  {
    hide HeaderBlock, ChecksumValid, IsZeroBlock, HeaderSize, Endless, StepIndex, ParsePax, BACKWARD;
    var r := MetadataRecord(0x78, BACKWARD, free);
    var file := BackwardFile(free);
    TwelveBytes();
    EightToTheEleventh();
    MetadataSized(0x78, BACKWARD, free);
    HeaderReads(r.fields);
    RecordBytesAre(r);
    HeaderAndData(HeaderBlock(r.fields), r.data, Zeros(PadTo(|r.data|)));
    assert file[0..BLOCK] == HeaderBlock(r.fields);
    assert PaxHeaderAt(file, 0) && PaxDataAt(file, 0) == BACKWARD;
    BackwardRunsForever(NONE_PENDING.pax);
    RunsForever(BACKWARD, NONE_PENDING.pax);
    HangsHere(file, 0, NONE_PENDING, []);
  }

  lemma TwelveBytes()
    ensures |BACKWARD| == 12 && PadTo(12) == 500
  {
  }

  lemma HeaderAndData(header: Header, data: bytes, rest: bytes)
    ensures (header + data + rest)[0..BLOCK] == header
    ensures (header + data + rest)[BLOCK..BLOCK + |data|] == data
  {
  }

  // ---------------------------------------------------------------- a member larger than any archive

  /** 2^64, in GNU's binary form. */
  const OVERSIZED: bytes := [0x80, 0, 0, 1, 0, 0, 0, 0, 0, 0, 0, 0]

  /** The header of a file "a" of that size. */
  const OVERSIZED_MEMBER :=
    Fields([0x61] + Zeros(99), Zeros(24), OVERSIZED, Zeros(12), 0x30, Zeros(100), Zeros(5), Zeros(83), Zeros(155),
           Zeros(12))

  lemma OversizedReadsAsNothing()
    ensures |OVERSIZED| == 12 && Number(OVERSIZED) == 0 && Meant(OVERSIZED) == U64
  {
    hide Whole256, Whole8, Number, Pow256;
    var tail: bytes := [0, 0, 0, 0, 0, 0, 0, 0];
    assert OVERSIZED[1..] == [0, 0, 1] + tail;
    Whole256Split([0, 0, 1], tail, 0);
    OneIsOne();
    ZerosShift(tail, 1);
    Pow256Is();
    NumberIffFits(OVERSIZED);
  }

  lemma OneIsOne()
    ensures Whole256([0, 0, 1], 0) == 1
  {
    assert [0, 0, 1][1..] == [0, 1] && [0, 1][1..] == [1] && [1][1..] == [];
    assert Whole256([1], 0) == 1;
    assert Whole256([0, 1], 0) == 1;
  }

  lemma {:induction false} ZerosShift(s: bytes, value: nat)
    requires forall i | 0 <= i < |s| :: s[i] == 0
    ensures Whole256(s, value) == value * Pow256(|s|)
    decreases |s|
  {
    if s != [] { ZerosShift(s[1..], value * 256); }
  }

  /** Whatever follows it, the reader takes the header for that of an empty file, although no archive could hold what
      the header announces: it is not seen to be cut short. */
  lemma OversizedIsListed(after: bytes)
    requires BLOCK + |after| < U64 / 2
    ensures WellSized(OVERSIZED_MEMBER)
    ensures var file := HeaderBlock(OVERSIZED_MEMBER) + after;
            && Meant(file[124..136]) == U64 > |file|
            && StepIndex(file, 0, NONE_PENDING, []) ==
               Continue(BLOCK, NONE_PENDING, [Entry([0x61], File, 0, BLOCK, 0, [])])
  {
    var f := OVERSIZED_MEMBER;
    OversizedSized();
    HeaderReads(f);
    OversizedReadsAsNothing();
    OversizedEntry();
    hide HeaderBlock, ChecksumValid, IsZeroBlock, MakeEntry, Meant, OVERSIZED_MEMBER, OVERSIZED;
    var file := HeaderBlock(f) + after;
    assert file[0..BLOCK] == HeaderBlock(f);
    assert file[124..136] == HeaderBlock(f)[124..136];
    NextIsRecordEnd(BLOCK, 0);
  }

  lemma OversizedSized()
    ensures WellSized(OVERSIZED_MEMBER) && OVERSIZED_MEMBER.flag == 0x30 && OVERSIZED_MEMBER.size == OVERSIZED
    ensures OVERSIZED_MEMBER.name == [0x61] + Zeros(99) && OVERSIZED_MEMBER.time == Zeros(12)
    ensures OVERSIZED_MEMBER.link == Zeros(100) && OVERSIZED_MEMBER.prefix == Zeros(155)
  {
  }

  lemma OversizedEntry()
    requires WellSized(OVERSIZED_MEMBER)
    ensures MakeEntry(HeaderBlock(OVERSIZED_MEMBER), NONE_PENDING, BLOCK) == Entry([0x61], File, 0, BLOCK, 0, [])
  {
    hide HeaderBlock, OVERSIZED_MEMBER, OVERSIZED, Number;
    OversizedSized();
    HeaderReads(OVERSIZED_MEMBER);
    OversizedReadsAsNothing();
    var h := HeaderBlock(OVERSIZED_MEMBER);
    UpToNulAt(h[0..100], 1);
    assert h[0..100][..1] == [0x61];
    UpToNulAt(h[345..500], 0);
    UpToNulAt(h[157..257], 0);
    ZeroTime();
    assert CleanName([0x61]) == [0x61];
  }

  lemma ZeroTime()
    ensures Number(Zeros(12)) == 0
  {
    assert Zeros(12)[0] == 0;
  }
}
