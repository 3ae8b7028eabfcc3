/** What the index guarantees on arbitrary bytes, well-formed archive or not. */
module TarSafety {
  import opened Bytes
  import opened TarArchive

  /** Offsets on block boundaries, each entry's data inside the file and before the next entry's
      header: so offsets strictly increase and no two data ranges meet. */
  predicate WellPlaced(entries: seq<Entry>, end: nat) {
    && (forall i :: 0 <= i < |entries| ==>
          entries[i].offset % BLOCK == 0 && entries[i].offset + entries[i].size <= end)
    && (forall i, j :: 0 <= i < j < |entries| ==>
          entries[i].offset + entries[i].size + BLOCK <= entries[j].offset)
  }

  /** One turn of the loop keeps entries well placed. The next position is the data's end rounded up
      in unbounded arithmetic: the 64-bit computation that finds it has not wrapped. */
  lemma StepPlaces(file: bytes, position: nat, pending: Pending, entries: seq<Entry>) returns (size: nat)
    requires |file| < U64 / 2 && position % BLOCK == 0
    requires WellPlaced(entries, position) && WellPlaced(entries, |file|)
    requires StepIndex(file, position, pending, entries).Continue?
    ensures position + BLOCK + size <= |file|
    ensures var step := StepIndex(file, position, pending, entries);
            step.position % BLOCK == 0 &&
            step.position == position + BLOCK + (size + (BLOCK - 1)) / BLOCK * BLOCK &&
            WellPlaced(step.entries, step.position) && WellPlaced(step.entries, |file|)
  {
    hide ChecksumValid, MakeEntry, Absorb, HeaderSize, FinalSize, IsZeroBlock, NextHeader, WellPlaced;
    var step := StepIndex(file, position, pending, entries);
    var dataOffset := position + BLOCK;
    var header: Header := file[position..dataOffset];
    var flag := header[156];
    size := if IsMetadata(flag) || flag == 0x67 then HeaderSize(header)
            else if HasData(flag) then FinalSize(header, pending) else 0;
    if SIZE !in pending.pax { FinalSizePlain(header, pending); }
    assert dataOffset + size <= |file|;
    RoundsUp(dataOffset, size);
    assert step.position == dataOffset + (size + (BLOCK - 1)) / BLOCK * BLOCK;
    var entry := MakeEntry(header, pending, dataOffset);
    assert step.entries == entries || step.entries == entries + [entry];
    EntryInside(header, pending, dataOffset);
    if step.entries == entries {
      WellPlacedLonger(entries, position, step.position);
    } else {
      assert entry.size <= size;
      WellPlacedAppend(entries, entry, position, step.position);
      WellPlacedAppend(entries, entry, position, |file|);
    }
  }

  lemma WellPlacedLonger(entries: seq<Entry>, end: nat, later: nat)
    requires WellPlaced(entries, end) && end <= later
    ensures WellPlaced(entries, later)
  {
  }

  lemma WellPlacedAppend(entries: seq<Entry>, entry: Entry, end: nat, later: nat)
    requires WellPlaced(entries, end) && entry.offset == end + BLOCK && end % BLOCK == 0
    requires entry.offset + entry.size <= later
    ensures WellPlaced(entries + [entry], later)
  {
  }

  lemma FinalSizePlain(header: Header, pending: Pending)
    requires SIZE !in pending.pax
    ensures FinalSize(header, pending) == HeaderSize(header)
  {
  }

  lemma EntryInside(header: Header, pending: Pending, dataOffset: nat)
    ensures var e := MakeEntry(header, pending, dataOffset);
            e.offset == dataOffset &&
            (e.size == 0 || (e.size == FinalSize(header, pending) && HasData(header[156])))
  {
    hide RawName, LinkTarget, FinalSize, HeaderTime;
  }

  lemma RoundsUp(dataOffset: nat, size: nat)
    requires dataOffset + size < U64 / 2
    ensures NextHeader(dataOffset, size) == dataOffset + (size + (BLOCK - 1)) / BLOCK * BLOCK
  {
  }

  lemma {:induction false} LoopPlaces(file: bytes, position: nat, pending: Pending, entries: seq<Entry>)
    requires |file| < U64 / 2 && position % BLOCK == 0
    requires WellPlaced(entries, position) && WellPlaced(entries, |file|)
    ensures var result := IndexFrom(file, position, pending, entries);
            result.Entries? ==> WellPlaced(result.entries, |file|)
    decreases |file| - position
  {
    match StepIndex(file, position, pending, entries)
    case Finish(result) => FinishKeeps(file, position, pending, entries);
    case Continue(next, more, listed) =>
      var size := StepPlaces(file, position, pending, entries);
      hide StepIndex, WellPlaced;
      LoopPlaces(file, next, more, listed);
  }

  lemma FinishKeeps(file: bytes, position: nat, pending: Pending, entries: seq<Entry>)
    requires |file| < U64 / 2
    ensures var step := StepIndex(file, position, pending, entries);
            step.Finish? && step.result.Entries? ==> step.result.entries == entries
  {
    hide ChecksumValid, MakeEntry, Absorb, HeaderSize, FinalSize, IsZeroBlock, NextHeader;
  }

  /** Whatever the bytes, the index fails or lists entries whose data ranges are block-aligned,
      strictly increasing, disjoint and inside the file. */
  lemma IndexPlaces(file: bytes)
    requires |file| < U64 / 2 && Index(file).Entries?
    ensures WellPlaced(Index(file).entries, |file|)
  {
    LoopPlaces(file, 0, NONE_PENDING, []);
  }

  /** No entries without a header each: their number is bounded by the blocks of the file. */
  lemma {:induction false} LoopBounds(file: bytes, position: nat, pending: Pending, entries: seq<Entry>)
    requires |file| < U64 / 2 && |entries| * BLOCK <= position && |entries| * BLOCK <= |file|
    ensures var result := IndexFrom(file, position, pending, entries);
            result.Entries? ==> |result.entries| * BLOCK <= |file|
    decreases |file| - position
  {
    match StepIndex(file, position, pending, entries)
    case Finish(result) => FinishKeeps(file, position, pending, entries);
    case Continue(next, more, listed) =>
      assert |listed| <= |entries| + 1 by {
        hide ChecksumValid, MakeEntry, Absorb, HeaderSize, FinalSize, IsZeroBlock, NextHeader;
      }
      hide StepIndex;
      LoopBounds(file, next, more, listed);
  }

  /** How many header blocks the loop reads from a position on. */
  function HeadersRead(file: bytes, position: nat, pending: Pending, entries: seq<Entry>): nat
    requires |file| < U64 / 2
    decreases |file| - position
  {
    match StepIndex(file, position, pending, entries)
    case Finish(_) => if position + BLOCK <= |file| then 1 else 0
    case Continue(next, more, listed) => 1 + HeadersRead(file, next, more, listed)
  }

  lemma StepReadsHeader(file: bytes, position: nat, pending: Pending, entries: seq<Entry>)
    requires |file| < U64 / 2 && StepIndex(file, position, pending, entries).Continue?
    ensures position + BLOCK <= |file| && StepIndex(file, position, pending, entries).position >= position + BLOCK
  {
    hide ChecksumValid, MakeEntry, Absorb, HeaderSize, FinalSize, IsZeroBlock, NextHeader;
  }

  /** Whatever the bytes, the loop reads no more headers than the file has blocks. */
  lemma {:induction false} HeadersBounded(file: bytes, position: nat, pending: Pending, entries: seq<Entry>)
    requires |file| < U64 / 2
    ensures HeadersRead(file, position, pending, entries) * BLOCK <=
            if position <= |file| then |file| - position else 0
    decreases |file| - position
  {
    hide StepIndex;
    match StepIndex(file, position, pending, entries)
    case Finish(_) =>
    case Continue(next, more, listed) =>
      StepReadsHeader(file, position, pending, entries);
      HeadersBounded(file, next, more, listed);
  }
}
