/** The tar reader: header fields, pax records and the block-stepping index.
    Each loop of the reader is a method proved against the function of the same purpose. */
module TarArchive {
  import opened Wrappers
  import opened Bytes

  const BLOCK := 512
  const MAX_METADATA_BYTES := 1024 * 1024
  const USTAR: bytes := [0x75, 0x73, 0x74, 0x61, 0x72]
  const PATH: bytes := [0x70, 0x61, 0x74, 0x68]
  const SIZE: bytes := [0x73, 0x69, 0x7A, 0x65]
  const LINKPATH: bytes := [0x6C, 0x69, 0x6E, 0x6B, 0x70, 0x61, 0x74, 0x68]

  /** One 512-byte header block. */
  type Header = h: bytes | |h| == BLOCK witness Zeros(BLOCK)

  datatype EntryType = File | Directory | Symlink | Other
  datatype Entry = Entry(name: bytes, kind: EntryType, size: nat, offset: nat, mtime: int, linkTarget: bytes)

  // ---------------------------------------------------------------- header fields

  /** The text of a NUL-terminated field. */
  function UpToNul(s: bytes): (r: bytes)
    ensures r <= s
  {
    if s == [] || s[0] == 0 then [] else [s[0]] + UpToNul(s[1..])
  }

  lemma UpToNulAt(s: bytes, end: nat)
    requires end <= |s|
    requires forall i :: 0 <= i < end ==> s[i] != 0
    requires end == |s| || s[end] == 0
    ensures UpToNul(s) == s[..end]
  {
    if end > 0 {
      UpToNulAt(s[1..], end - 1);
      assert s[..end] == [s[0]] + s[1..][..end - 1];
    }
  }

  function Field(header: Header, offset: nat, length: nat): bytes
    requires offset + length <= BLOCK
  {
    UpToNul(header[offset..offset + length])
  }

  method ReadField(header: Header, offset: nat, length: nat) returns (text: bytes)
    requires offset + length <= BLOCK
    ensures text == Field(header, offset, length)
  {
    var end := offset;
    while end < offset + length && header[end] != 0
      invariant offset <= end <= offset + length
      invariant forall i :: offset <= i < end ==> header[i] != 0
    {
      end := end + 1;
    }
    UpToNulAt(header[offset..offset + length], end - offset);
    assert header[offset..offset + length][..end - offset] == header[offset..end];
    return header[offset..end];
  }

  /** Big-endian base 256 in 64 bits: bits shifted out at the top are lost. */
  function Base256(s: bytes, value: nat): (r: nat)
    requires value < U64
    ensures r < U64
  {
    if s == [] then value else Base256(s[1..], (value * 256 + s[0]) % U64)
  }

  /** Octal text: leading spaces are padding, the first other byte ends the number. */
  function Octal(s: bytes, value: nat): (r: nat)
    requires value < U64
    ensures r < U64
  {
    if s == [] then value
    else if s[0] == 0x20 && value == 0 then Octal(s[1..], value)
    else if s[0] < 0x30 || s[0] > 0x37 then value
    else Octal(s[1..], (value * 8 + (s[0] - 0x30)) % U64)
  }

  function Number(field: bytes): (r: nat)
    requires field != []
    ensures r < U64
  {
    if field[0] >= 0x80 then Base256(field[1..], field[0] - 0x80) else Octal(field, 0)
  }

  method ReadNumber(header: Header, offset: nat, length: nat) returns (value: nat)
    requires 0 < length && offset + length <= BLOCK
    ensures value == Number(header[offset..offset + length])
  {
    var end := offset + length;
    ghost var field := header[offset..end];
    if header[offset] >= 0x80 {
      value := header[offset] - 0x80;
      var i := offset + 1;
      assert field[1..] == header[i..end];
      while i < end
        invariant offset < i <= end
        invariant value < U64
        invariant Number(field) == Base256(header[i..end], value)
      {
        assert header[i..end][1..] == header[i + 1..end];
        value := (value * 256 + header[i]) % U64;
        i := i + 1;
      }
    } else {
      value := 0;
      var i := offset;
      while i < end
        invariant offset <= i <= end
        invariant value < U64
        invariant Number(field) == Octal(header[i..end], value)
      {
        var c := header[i];
        assert header[i..end][1..] == header[i + 1..end];
        if c == 0x20 && value == 0 {
          i := i + 1;
          continue;
        }
        if c < 0x30 || c > 0x37 { break; }
        value := (value * 8 + (c - 0x30)) % U64;
        i := i + 1;
      }
    }
  }

  function ByteSum(s: bytes): nat {
    if s == [] then 0 else ByteSum(s[..|s| - 1]) + s[|s| - 1]
  }

  /** The header sum, its own eight bytes at 148 counted as spaces. */
  function Checksum(header: Header): nat {
    ByteSum(header[..148]) + 8 * 0x20 + ByteSum(header[156..])
  }

  predicate ChecksumValid(header: Header) {
    Checksum(header) == Number(header[148..156])
  }

  method CheckChecksum(header: Header) returns (valid: bool)
    ensures valid == ChecksumValid(header)
  {
    var sum: nat := 0;
    var i: nat := 0;
    while i < BLOCK
      invariant 0 <= i <= BLOCK
      invariant sum == if i <= 148 then ByteSum(header[..i])
                       else if i <= 156 then ByteSum(header[..148]) + (i - 148) * 0x20
                       else ByteSum(header[..148]) + 8 * 0x20 + ByteSum(header[156..i])
    {
      if i < 148 {
        assert header[..i + 1][..i] == header[..i];
      } else if i >= 156 {
        assert header[156..i + 1][..i - 156] == header[156..i];
      }
      var counted: nat := if 148 <= i < 156 then 0x20 else header[i];
      sum := sum + counted;
      i := i + 1;
    }
    assert header[156..BLOCK] == header[156..];
    var stored := ReadNumber(header, 148, 8);
    return sum == stored;
  }

  predicate IsZeroBlock(header: Header) {
    forall i :: 0 <= i < BLOCK ==> header[i] == 0
  }

  // ---------------------------------------------------------------- names

  predicate StartsDotSlash(name: bytes) { |name| >= 2 && name[0] == 0x2E && name[1] == 0x2F }

  function DropDotSlashes(name: bytes): (r: bytes)
    ensures |r| <= |name|
  {
    if StartsDotSlash(name) then DropDotSlashes(name[2..]) else name
  }

  function DropSlashes(name: bytes): (r: bytes)
    ensures |r| <= |name|
  {
    if name != [] && name[0] == 0x2F then DropSlashes(name[1..]) else name
  }

  function CleanName(name: bytes): bytes { DropSlashes(DropDotSlashes(name)) }

  method MakeCleanName(given: bytes) returns (name: bytes)
    ensures name == CleanName(given)
  {
    name := given;
    while StartsDotSlash(name)
      invariant DropDotSlashes(name) == DropDotSlashes(given)
      decreases |name|
    {
      name := name[2..];
    }
    while name != [] && name[0] == 0x2F
      invariant DropSlashes(name) == CleanName(given)
      decreases |name|
    {
      name := name[1..];
    }
  }

  function TrimSlashes(name: bytes): (r: bytes)
    ensures |r| <= |name|
  {
    if name != [] && name[|name| - 1] == 0x2F then TrimSlashes(name[..|name| - 1]) else name
  }

  // ---------------------------------------------------------------- pax records

  datatype PaxStep = Stop | Record(fields: map<bytes, bytes>, next: nat)

  /** One turn of the record loop at `pos`. `pos + length` is computed modulo 2^64 as `size_t` is,
      so `next` can lie before `pos`. */
  function StepPax(data: bytes, pos: nat): (r: PaxStep)
    requires pos < |data|
    ensures r.Record? ==> r.next <= |data|
  {
    var space := Find(data, 0x20, pos);
    if space == |data| then Stop else
      match Stoull(data[pos..space])
      case None => Stop
      case Some(length) =>
        if length < (space - pos) + 3 || (pos + length) % U64 > |data| then Stop
        else
          var end := space + 1 + (length - (space - pos) - 2);
          var record := data[space + 1..if end <= |data| then end else |data|];
          var equals := Find(record, 0x3D, 0);
          Record(if equals < |record| then map[record[..equals] := record[equals + 1..]] else map[],
                 (pos + length) % U64)
  }

  datatype PaxOutcome = Done(fields: map<bytes, bytes>) | OutOfSteps

  /** The loop from `pos`, given up after `steps` accepted records. */
  function RunPax(data: bytes, pos: nat, fields: map<bytes, bytes>, steps: nat): PaxOutcome
    decreases steps
  {
    if pos >= |data| then Done(fields) else
      match StepPax(data, pos)
      case Stop => Done(fields)
      case Record(more, next) =>
        if steps == 0 then OutOfSteps else RunPax(data, next, fields + more, steps - 1)
  }

  /** The whole loop. A run that accepts more records than there are positions has revisited one
      and never ends (see TarPax.RunsForever), so `OutOfSteps` here means the loop does not end. */
  function ParsePax(data: bytes, fields: map<bytes, bytes>): PaxOutcome {
    RunPax(data, 0, fields, |data|)
  }

  /** The body of the record loop. */
  method ReadPaxRecord(data: bytes, pos: nat) returns (step: PaxStep)
    requires pos < |data|
    ensures step == StepPax(data, pos)
  {
    var space := Find(data, 0x20, pos);
    if space == |data| { return Stop; }
    var parsed := Stoull(data[pos..space]);
    if parsed == None { return Stop; }
    var length := parsed.value;
    if length < (space - pos) + 3 || (pos + length) % U64 > |data| { return Stop; }
    var end := space + 1 + (length - (space - pos) - 2);
    var record := data[space + 1..if end <= |data| then end else |data|];
    var equals := Find(record, 0x3D, 0);
    var fields := map[];
    if equals < |record| { fields := map[record[..equals] := record[equals + 1..]]; }
    return Record(fields, (pos + length) % U64);
  }

  /** The record loop. The program's does not end on some data; the model's gives up once it has taken more
      records than there are positions, and says so. */
  method ReadPax(data: bytes, given: map<bytes, bytes>) returns (outcome: PaxOutcome)
    ensures outcome == ParsePax(data, given)
  {
    hide StepPax;
    var fields := given;
    var pos: nat, steps: nat := 0, |data|;
    while pos < |data|
      invariant RunPax(data, pos, fields, steps) == ParsePax(data, given)
      decreases steps
    {
      var step := ReadPaxRecord(data, pos);
      if step == Stop { break; }
      if steps == 0 { return OutOfSteps; }
      fields, pos, steps := fields + step.fields, step.next, steps - 1;
    }
    return Done(fields);
  }

  // ---------------------------------------------------------------- the index

  /** Metadata read ahead of the entry it belongs to. */
  datatype Pending = Pending(longName: bytes, longLink: bytes, pax: map<bytes, bytes>)
  const NONE_PENDING := Pending([], [], map[])

  datatype TarError = Truncated | NotATar | CorruptHeader(at: nat)
  datatype Result = Entries(entries: seq<Entry>) | Failed(error: TarError) | Hangs

  function HeaderSize(header: Header): nat { Number(header[124..136]) }
  function HeaderTime(header: Header): int { AsSigned(Number(header[136..148])) }

  /** `static_cast<long long>` of an `unsigned long long`. */
  function AsSigned(value: nat): int { if value < U64 / 2 then value else value - U64 }

  predicate HasData(flag: byte) { flag != 0x31 && flag != 0x32 && flag != 0x35 }
  predicate IsMetadata(flag: byte) { flag == 0x4C || flag == 0x4B || flag == 0x78 }

  /** `dataOffset + (size + 511) / 512 * 512` in 64-bit arithmetic. Where the truncation rule has let
      a size through (it ends inside a file of less than 2^63 bytes) nothing wraps: the next header
      is the first block boundary, counted from the data, at or after the data's end. */
  function NextHeader(dataOffset: nat, size: nat): (next: nat)
    ensures dataOffset + size < U64 / 2 ==>
              dataOffset + size <= next < dataOffset + size + BLOCK && (next - dataOffset) % BLOCK == 0
  {
    (dataOffset + (size + 511) % U64 / 512 * 512) % U64
  }

  function RawName(header: Header, pending: Pending): bytes {
    var prefix := Field(header, 345, 155);
    var plain := Field(header, 0, 100);
    if PATH in pending.pax then pending.pax[PATH]
    else if pending.longName != [] then pending.longName
    else if Field(header, 257, 5) == USTAR && prefix != [] then prefix + [0x2F] + plain
    else plain
  }

  function LinkTarget(header: Header, pending: Pending): bytes {
    if pending.longLink != [] then pending.longLink
    else if LINKPATH in pending.pax then pending.pax[LINKPATH]
    else Field(header, 157, 100)
  }

  /** The member's data length: a readable pax override wins over the header's own number. */
  function FinalSize(header: Header, pending: Pending): nat {
    if SIZE in pending.pax && Stoull(pending.pax[SIZE]).Some? then Stoull(pending.pax[SIZE]).value
    else HeaderSize(header)
  }

  function FlagType(flag: byte): EntryType {
    if flag == 0x30 || flag == 0 || flag == 0x37 then File
    else if flag == 0x35 then Directory
    else if flag == 0x32 then Symlink
    else Other
  }

  function EndsWithSlash(name: bytes): bool { name != [] && name[|name| - 1] == 0x2F }

  function MakeEntry(header: Header, pending: Pending, dataOffset: nat): Entry {
    var name := CleanName(RawName(header, pending));
    var flagged := FlagType(header[156]);
    var kind := if flagged == File && EndsWithSlash(name) then Directory else flagged;
    Entry(if kind == Directory then TrimSlashes(name) else name, kind,
          if kind == File then FinalSize(header, pending) else 0,
          dataOffset, HeaderTime(header), LinkTarget(header, pending))
  }

  datatype IndexStep = Finish(result: Result) | Continue(position: nat, pending: Pending, entries: seq<Entry>)

  /** One turn of the index loop: what the header at `position` does to the pending metadata and
      the entries, and where the next header is looked for. */
  function StepIndex(file: bytes, position: nat, pending: Pending, entries: seq<Entry>): (step: IndexStep)
    requires |file| < U64 / 2
    ensures step.Continue? ==> position + BLOCK <= step.position && position + BLOCK <= |file|
  {
    if position >= |file| then Finish(Entries(entries))
    else if |file| - position < BLOCK then Finish(Failed(Truncated))
    else
      var dataOffset := position + BLOCK;
      var header := file[position..dataOffset];
      if IsZeroBlock(header) then Finish(Entries(entries))
      else if !ChecksumValid(header) then Finish(Failed(if entries == [] then NotATar else CorruptHeader(position)))
      else
        var flag := header[156];
        var size := HeaderSize(header);
        var room := |file| - dataOffset;
        if HasData(flag) && size > room then Finish(Entries(entries))
        else if IsMetadata(flag) then
          if size > MAX_METADATA_BYTES then Finish(Failed(CorruptHeader(position)))
          else
            match Absorb(flag, file[dataOffset..dataOffset + size], pending)
            case None => Finish(Hangs)
            case Some(more) => Continue(NextHeader(dataOffset, size), more, entries)
        else if flag == 0x67 then Continue(NextHeader(dataOffset, size), pending, entries)
        else if SIZE in pending.pax && FinalSize(header, pending) > room then Finish(Entries(entries))
        else
          var entry := MakeEntry(header, pending, dataOffset);
          Continue(if HasData(flag) then NextHeader(dataOffset, FinalSize(header, pending)) else dataOffset,
                   NONE_PENDING, if entry.name == [] then entries else entries + [entry])
  }

  /** Takes in an `L`, `K` or `x` record's data; `None` when its pax records never stop parsing. */
  function Absorb(flag: byte, data: bytes, pending: Pending): Option<Pending> {
    if flag == 0x4C then Some(pending.(longName := UpToNul(data)))
    else if flag == 0x4B then Some(pending.(longLink := UpToNul(data)))
    else
      match ParsePax(data, pending.pax)
      case OutOfSteps => None
      case Done(fields) => Some(pending.(pax := fields))
  }

  function IndexFrom(file: bytes, position: nat, pending: Pending, entries: seq<Entry>): Result
    requires |file| < U64 / 2
    decreases |file| - position
  {
    match StepIndex(file, position, pending, entries)
    case Finish(result) => result
    case Continue(next, more, listed) => IndexFrom(file, next, more, listed)
  }

  function Index(file: bytes): Result
    requires |file| < U64 / 2
  {
    IndexFrom(file, 0, NONE_PENDING, [])
  }

  method DropTrailingSlashes(given: bytes) returns (name: bytes)
    ensures name == TrimSlashes(given)
  {
    name := given;
    while EndsWithSlash(name)
      invariant TrimSlashes(name) == TrimSlashes(given)
      decreases |name|
    {
      name := name[..|name| - 1];
    }
  }

  method ReadEntry(header: Header, pending: Pending, dataOffset: nat, size: nat) returns (entry: Entry)
    requires size == FinalSize(header, pending)
    ensures entry == MakeEntry(header, pending, dataOffset)
  {
    hide Field, Number, CleanName, TrimSlashes, FinalSize, AsSigned;
    var name := ReadField(header, 0, 100);
    var prefix := ReadField(header, 345, 155);
    var magic := ReadField(header, 257, 5);
    if magic == USTAR && prefix != [] { name := prefix + [0x2F] + name; }
    if pending.longName != [] { name := pending.longName; }
    if PATH in pending.pax { name := pending.pax[PATH]; }
    name := MakeCleanName(name);
    var linkField := ReadField(header, 157, 100);
    var linkTarget := if pending.longLink != [] then pending.longLink
                      else if LINKPATH in pending.pax then pending.pax[LINKPATH] else linkField;
    var time := ReadNumber(header, 136, 12);
    var kind := FlagType(header[156]);
    if kind == File && EndsWithSlash(name) { kind := Directory; }
    var listedSize := if kind == File then size else 0;
    if kind == Directory { name := DropTrailingSlashes(name); }
    return Entry(name, kind, listedSize, dataOffset, AsSigned(time), linkTarget);
  }

  /** The body of the index loop. */
  method ReadMember(file: bytes, position: nat, pending: Pending, entries: seq<Entry>) returns (step: IndexStep)
    requires |file| < U64 / 2
    ensures step == StepIndex(file, position, pending, entries)
  {
    hide ChecksumValid, ParsePax, MakeEntry, NextHeader, IsZeroBlock, Number, UpToNul, Stoull;
    if position >= |file| { return Finish(Entries(entries)); }
    if |file| - position < BLOCK { return Finish(Failed(Truncated)); }
    var dataOffset := position + BLOCK;
    var header: Header := file[position..dataOffset];
    if IsZeroBlock(header) { return Finish(Entries(entries)); }
    var valid := CheckChecksum(header);
    if !valid { return Finish(Failed(if entries == [] then NotATar else CorruptHeader(position))); }

    var flag := header[156];
    var size := ReadNumber(header, 124, 12);
    if HasData(flag) && size > |file| - dataOffset { return Finish(Entries(entries)); }
    var next := NextHeader(dataOffset, size);

    if IsMetadata(flag) {
      if size > MAX_METADATA_BYTES { return Finish(Failed(CorruptHeader(position))); }
      var data := file[dataOffset..dataOffset + size];
      if flag == 0x4C { return Continue(next, pending.(longName := UpToNul(data)), entries); }
      if flag == 0x4B { return Continue(next, pending.(longLink := UpToNul(data)), entries); }
      var pax := ReadPax(data, pending.pax);
      if pax == OutOfSteps { return Finish(Hangs); }
      return Continue(next, pending.(pax := pax.fields), entries);
    }
    if flag == 0x67 { return Continue(next, pending, entries); }

    if SIZE in pending.pax {
      var parsed := Stoull(pending.pax[SIZE]);
      if parsed.Some? { size := parsed.value; }
      if size > |file| - dataOffset { return Finish(Entries(entries)); }
    }
    var entry := ReadEntry(header, pending, dataOffset, size);
    return Continue(if HasData(flag) then NextHeader(dataOffset, size) else dataOffset, NONE_PENDING,
                    if entry.name == [] then entries else entries + [entry]);
  }

  /** The reader's loop. `headers` counts the header blocks it has read. */
  method ReadIndex(file: bytes) returns (result: Result, ghost headers: nat)
    requires |file| < U64 / 2
    ensures result == Index(file)
    ensures headers * BLOCK <= |file|
  {
    var entries: seq<Entry> := [];
    var position: nat := 0;
    var pending := NONE_PENDING;
    headers := 0;
    while true
      invariant IndexFrom(file, position, pending, entries) == Index(file)
      invariant headers * BLOCK <= position
      invariant headers * BLOCK <= |file|
      decreases |file| - position
    {
      var step := ReadMember(file, position, pending, entries);
      if position + BLOCK <= |file| { headers := headers + 1; }
      if step.Finish? { return step.result, headers; }
      position, pending, entries := step.position, step.pending, step.entries;
    }
  }
}
