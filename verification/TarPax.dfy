/** Pax extended header records: when the record loop ends, and that it reads back what a writer of
    the POSIX pax format ("%d %s=%s\n", the length counting the whole record) puts down. */
module TarPax {
  import opened Wrappers
  import opened Bytes
  import opened TarArchive

  // ---------------------------------------------------------------- termination

  /** A turn moves the cursor forward exactly when the record's length does not carry the sum past
      2^64. */
  lemma MovesForward(data: bytes, pos: nat)
    requires pos < |data| < U64
    requires StepPax(data, pos).Record?
    ensures StepPax(data, pos).next > pos <==>
            pos + Stoull(data[pos..Find(data, 0x20, pos)]).value < U64
  {
  }

  ghost predicate Forward(data: bytes) {
    forall pos :: 0 <= pos < |data| && StepPax(data, pos).Record? ==> StepPax(data, pos).next > pos
  }

  /** A loop whose records all move forward ends. */
  lemma {:induction false} ForwardEnds(data: bytes, pos: nat, fields: map<bytes, bytes>, steps: nat)
    requires Forward(data) && |data| <= pos + steps
    ensures RunPax(data, pos, fields, steps).Done?
    decreases steps
  {
    hide StepPax;
    if pos < |data| {
      match StepPax(data, pos)
      case Stop =>
      case Record(more, next) => ForwardEnds(data, next, fields + more, steps - 1);
    }
  }

  /** No record that begins in the data is so long that adding its length to its position passes 2^64. */
  ghost predicate NoWrap(data: bytes) {
    forall pos :: 0 <= pos < |data| && StepPax(data, pos).Record? ==>
      pos + Stoull(data[pos..Find(data, 0x20, pos)]).value < U64
  }

  /** Data whose records stay below 2^64 is parsed to an end, whatever fields were there before. */
  lemma NoWrapEnds(data: bytes, fields: map<bytes, bytes>)
    requires |data| < U64 && NoWrap(data)
    ensures ParsePax(data, fields).Done?
  {
    hide StepPax, Stoull, Find;
    forall pos | 0 <= pos < |data| && StepPax(data, pos).Record? ensures StepPax(data, pos).next > pos {
      MovesForward(data, pos);
    }
    ForwardEnds(data, 0, fields, |data|);
  }

  /** The cursor after `n` accepted records, if the loop is still running there. */
  ghost function Cursor(data: bytes, n: nat): (r: Option<nat>)
    ensures r.Some? ==> r.value < |data|
  {
    if n == 0 then (if data == [] then None else Some(0))
    else
      match Cursor(data, n - 1)
      case None => None
      case Some(pos) =>
        match StepPax(data, pos)
        case Stop => None
        case Record(_, next) => if next < |data| then Some(next) else None
  }

  lemma {:induction false} CursorPrefix(data: bytes, m: nat, n: nat)
    requires m <= n && Cursor(data, n).Some?
    ensures Cursor(data, m).Some?
    decreases n
  {
    hide StepPax;
    if m < n { CursorPrefix(data, m, n - 1); }
  }

  /** Running out of `steps` more steps means the loop accepts `steps` more records and is then still
      inside the data. */
  lemma {:induction false} RunFollowsCursor(data: bytes, n: nat, fields: map<bytes, bytes>, steps: nat)
    requires Cursor(data, n).Some?
    ensures RunPax(data, Cursor(data, n).value, fields, steps).OutOfSteps? <==>
            Cursor(data, n + steps).Some? && StepPax(data, Cursor(data, n + steps).value).Record?
    decreases steps
  {
    hide StepPax;
    var pos := Cursor(data, n).value;
    match StepPax(data, pos)
    case Stop =>
      if steps > 0 && Cursor(data, n + steps).Some? { CursorPrefix(data, n + 1, n + steps); }
    case Record(more, next) =>
      if steps > 0 {
        if next < |data| {
          assert Cursor(data, n + 1) == Some(next);
          RunFollowsCursor(data, n + 1, fields + more, steps - 1);
        } else if Cursor(data, n + steps).Some? {
          CursorPrefix(data, n + 1, n + steps);
        }
      }
  }

  /** Two visits to one position: the loop repeats itself from there. */
  lemma {:induction false} CursorRepeats(data: bytes, i: nat, j: nat, n: nat)
    requires i < j && Cursor(data, i).Some? && Cursor(data, i) == Cursor(data, j)
    ensures Cursor(data, n).Some?
    decreases n
  {
    hide StepPax;
    if n <= j {
      CursorPrefix(data, n, j);
    } else {
      CursorRepeats(data, i, j, n - (j - i));
      CursorShift(data, i, j, n - j);
    }
  }

  lemma {:induction false} CursorShift(data: bytes, i: nat, j: nat, k: nat)
    requires Cursor(data, i) == Cursor(data, j)
    ensures Cursor(data, i + k) == Cursor(data, j + k)
    decreases k
  {
    hide StepPax;
    if k > 0 { CursorShift(data, i, j, k - 1); }
  }

  /** Pigeonhole: more values than a bound, all below it, hold a repetition. */
  lemma {:induction false} Pigeonhole(s: seq<nat>, bound: nat) returns (i: nat, j: nat)
    requires |s| > bound && forall k :: 0 <= k < |s| ==> s[k] < bound
    ensures i < j < |s| && s[i] == s[j]
    decreases bound
  {
    var last := s[|s| - 1];
    if k :| 0 <= k < |s| - 1 && s[k] == last {
      return k, |s| - 1;
    }
    // `last` occurs once: close the gap it leaves and look at the rest.
    var t: seq<nat> := seq(|s| - 1, k requires 0 <= k < |s| - 1 => if s[k] > last then s[k] - 1 else s[k]);
    forall k | 0 <= k < |t| ensures t[k] < bound - 1 { assert s[k] != last; }
    i, j := Pigeonhole(t, bound - 1);
    assert s[i] != last && s[j] != last;
  }

  lemma RepeatExists(data: bytes) returns (i: nat, j: nat)
    requires Cursor(data, |data|).Some?
    ensures i < j && Cursor(data, i).Some? && Cursor(data, i) == Cursor(data, j)
  {
    hide StepPax;
    forall k: nat | k <= |data| ensures Cursor(data, k).Some? { CursorPrefix(data, k, |data|); }
    var visits: seq<nat> := seq(|data| + 1, k requires 0 <= k <= |data| => Cursor(data, k).value);
    i, j := Pigeonhole(visits, |data|);
    assert visits[i] == Cursor(data, i).value && visits[j] == Cursor(data, j).value;
  }

  /** However many records the loop is allowed, it runs out. */
  ghost predicate Endless(data: bytes, fields: map<bytes, bytes>) {
    forall n: nat :: RunPax(data, 0, fields, n).OutOfSteps?
  }

  /** `ParsePax` gives up exactly on the data the loop never finishes. */
  lemma RunsForever(data: bytes, fields: map<bytes, bytes>)
    ensures ParsePax(data, fields).OutOfSteps? <==> Endless(data, fields)
  {
    hide StepPax;
    if ParsePax(data, fields).OutOfSteps? {
      assert Cursor(data, 0) == Some(0);
      RunFollowsCursor(data, 0, fields, |data|);
      var i, j := RepeatExists(data);
      forall n: nat ensures RunPax(data, 0, fields, n).OutOfSteps? {
        CursorRepeats(data, i, j, n);
        CursorRepeats(data, i, j, n + 1);
        RunFollowsCursor(data, 0, fields, n);
      }
    } else {
      assert !RunPax(data, 0, fields, |data|).OutOfSteps?;
    }
  }

  // ---------------------------------------------------------------- when an index never ends

  /** At this place there is a sound pax header, within the limits. */
  predicate PaxHeaderAt(file: bytes, position: nat) {
    position + BLOCK <= |file| &&
    var header: Header := file[position..position + BLOCK];
    && !IsZeroBlock(header) && ChecksumValid(header) && header[156] == 0x78
    && HeaderSize(header) <= MAX_METADATA_BYTES && position + BLOCK + HeaderSize(header) <= |file|
  }

  /** The records that belong to it. */
  function PaxDataAt(file: bytes, position: nat): bytes
    requires PaxHeaderAt(file, position)
  {
    var start := position + BLOCK;
    file[start..start + HeaderSize(file[position..start])]
  }

  /** At this place there is a sound pax header on whose records the loop never ends. */
  ghost predicate StuckHeader(file: bytes, position: nat, pending: Pending) {
    PaxHeaderAt(file, position) && Endless(PaxDataAt(file, position), pending.pax)
  }

  lemma HangsHere(file: bytes, position: nat, pending: Pending, entries: seq<Entry>)
    requires |file| < U64 / 2
    ensures StepIndex(file, position, pending, entries) == Finish(Hangs) <==> StuckHeader(file, position, pending)
  {
    hide ParsePax, Endless, ChecksumValid, IsZeroBlock, Number, NextHeader, MakeEntry, FinalSize;
    if position + BLOCK <= |file| {
      var start := position + BLOCK;
      var size := HeaderSize(file[position..start]);
      if start + size <= |file| { RunsForever(file[start..start + size], pending.pax); }
    }
  }

  /** The index loop comes by a place, with this metadata pending. */
  ghost predicate ComesBy(file: bytes, position: nat, pending: Pending, entries: seq<Entry>, at: nat, due: Pending)
    requires |file| < U64 / 2
    decreases |file| - position
  {
    || (position == at && pending == due)
    || match StepIndex(file, position, pending, entries)
       case Finish(_) => false
       case Continue(next, more, listed) => ComesBy(file, next, more, listed, at, due)
  }

  lemma {:induction false} HangsFrom(file: bytes, position: nat, pending: Pending, entries: seq<Entry>)
    requires |file| < U64 / 2
    ensures IndexFrom(file, position, pending, entries) == Hangs <==>
            exists at: nat, due: Pending ::
              ComesBy(file, position, pending, entries, at, due) && StuckHeader(file, at, due)
    decreases |file| - position
  {
    hide StepIndex, StuckHeader;
    HangsHere(file, position, pending, entries);
    match StepIndex(file, position, pending, entries)
    case Finish(result) =>
      if StuckHeader(file, position, pending) { assert ComesBy(file, position, pending, entries, position, pending); }
    case Continue(next, more, listed) =>
      HangsFrom(file, next, more, listed);
      if IndexFrom(file, next, more, listed) == Hangs {
        var at: nat, due: Pending :| ComesBy(file, next, more, listed, at, due) && StuckHeader(file, at, due);
        assert ComesBy(file, position, pending, entries, at, due);
      }
  }

  /** Indexing a file never ends exactly if the loop comes by a pax header whose records never end. */
  lemma IndexHangsIff(file: bytes)
    requires |file| < U64 / 2
    ensures Index(file) == Hangs <==>
            exists at: nat, pending: Pending ::
              ComesBy(file, 0, NONE_PENDING, [], at, pending) && StuckHeader(file, at, pending)
  {
    hide ComesBy, StuckHeader, IndexFrom;
    HangsFrom(file, 0, NONE_PENDING, []);
  }

  /** Where no record of any pax header in the file is so long that it wraps, indexing the file ends. */
  lemma NoWrapNeverHangs(file: bytes)
    requires |file| < U64 / 2
    requires forall at: nat | PaxHeaderAt(file, at) :: NoWrap(PaxDataAt(file, at))
    ensures Index(file) != Hangs
  {
    hide Index, NoWrap, PaxHeaderAt, PaxDataAt, ComesBy, Endless, ParsePax;
    IndexHangsIff(file);
    if Index(file) == Hangs {
      var at: nat, pending: Pending :|
        ComesBy(file, 0, NONE_PENDING, [], at, pending) && StuckHeader(file, at, pending);
      PaxDataIsShort(file, at);
      NoWrapEnds(PaxDataAt(file, at), pending.pax);
      RunsForever(PaxDataAt(file, at), pending.pax);
      assert false;
    }
  }

  lemma PaxDataIsShort(file: bytes, at: nat)
    requires PaxHeaderAt(file, at)
    ensures |PaxDataAt(file, at)| <= |file|
  {
    hide IsZeroBlock, ChecksumValid, HeaderSize;
  }

  /** Two records, "5 a=\n" and "-5 k=v\n": the second one's length is 2^64 - 5, so adding it to its
      own position 5 gives 0 again. */
  const BACKWARD: bytes := [0x35, 0x20, 0x61, 0x3D, 0x0A, 0x2D, 0x35, 0x20, 0x6B, 0x3D, 0x76, 0x0A]

  lemma BackwardNumbers()
    ensures Stoull(BACKWARD[0..1]) == Some(5) && Stoull(BACKWARD[5..7]) == Some(U64 - 5)
  {
    hide Decimal;
    DecimalFive();
    assert BACKWARD[0..1] == Decimal(5);
    StoullDecimal(5);
    assert BACKWARD[5..7] == [0x2D, 0x35] && [0x2D, 0x35][1..] == Decimal(5);
    DigitCountWhole(Decimal(5), []);
    assert Decimal(5) + [] == Decimal(5);
  }

  lemma DecimalFive()
    ensures Decimal(5) == [0x35]
  {
  }

  lemma BackwardSteps()
    ensures StepPax(BACKWARD, 0).Record? && StepPax(BACKWARD, 0).next == 5
    ensures StepPax(BACKWARD, 5).Record? && StepPax(BACKWARD, 5).next == 0
  {
    hide Stoull;
    BackwardNumbers();
    FindAt(BACKWARD, 0x20, 0, 1);
    FindAt(BACKWARD, 0x20, 5, 7);
  }

  lemma BackwardRunsForever(fields: map<bytes, bytes>)
    ensures ParsePax(BACKWARD, fields).OutOfSteps?
  {
    hide StepPax, RunPax;
    BackwardSteps();
    assert Cursor(BACKWARD, 0) == Some(0);
    assert Cursor(BACKWARD, 1) == Some(5);
    assert Cursor(BACKWARD, 2) == Some(0);
    CursorRepeats(BACKWARD, 0, 2, |BACKWARD|);
    CursorRepeats(BACKWARD, 0, 2, |BACKWARD| + 1);
    RunFollowsCursor(BACKWARD, 0, fields, |BACKWARD|);
  }

  // ---------------------------------------------------------------- writing and reading back

  function DigitsIn(n: nat): nat { |Decimal(n)| }

  lemma {:induction false} DigitsGrowSlowly(n: nat)
    ensures DigitsIn(n) <= DigitsIn(n + 1) <= DigitsIn(n) + 1
    ensures 2 * DigitsIn(n) <= n + 2
  {
    if n >= 10 {
      DigitsGrowSlowly(n / 10);
      assert (n + 1) / 10 == n / 10 || (n + 1) / 10 == n / 10 + 1;
    } else if n == 9 {
      assert DigitsIn(10) == 1 + DigitsIn(1);
    }
  }

  /** The number of digits of a record length that counts its own digits. */
  function LengthDigits(rest: nat, digits: nat): (d: nat)
    requires digits <= DigitsIn(rest + digits)
    ensures d == DigitsIn(rest + d)
    decreases rest + 3 - digits
  {
    if digits == DigitsIn(rest + digits) then digits else
      DigitsGrowSlowly(rest + digits);
      LengthDigits(rest, digits + 1)
  }

  /** One record of the pax format. */
  function PaxRecord(key: bytes, value: bytes): (r: bytes)
    ensures exists length: bytes :: r == length + [0x20] + key + [0x3D] + value + [0x0A] && length == Decimal(|r|)
  {
    var rest := |key| + |value| + 3;
    var length := Decimal(rest + LengthDigits(rest, 0));
    length + [0x20] + key + [0x3D] + value + [0x0A]
  }

  function WritePax(records: seq<(bytes, bytes)>): bytes {
    if records == [] then [] else PaxRecord(records[0].0, records[0].1) + WritePax(records[1..])
  }

  /** What the records mean: later ones override earlier ones of the same keyword. */
  function PaxMeaning(fields: map<bytes, bytes>, records: seq<(bytes, bytes)>): map<bytes, bytes>
    decreases |records|
  {
    if records == [] then fields else PaxMeaning(fields[records[0].0 := records[0].1], records[1..])
  }

  lemma MiddleOf(data: bytes, before: bytes, middle: bytes, after: bytes)
    requires data == before + middle + after
    ensures data[|before|..|before| + |middle|] == middle
  {
  }

  /** The first `c` of a text whose front holds none is where the front ends. */
  lemma FindAfter(data: bytes, before: bytes, middle: bytes, c: byte, after: bytes)
    requires data == before + (middle + [c]) + after && c !in middle
    ensures Find(data, c, |before|) == |before| + |middle|
  {
    forall i | |before| <= i < |before| + |middle| ensures data[i] != c {
      assert data[i] == middle[i - |before|];
    }
    FindAt(data, c, |before|, |before| + |middle|);
  }

  lemma Regroup(before: bytes, length: bytes, body: bytes, after: bytes)
    ensures var data := before + (length + [0x20] + body + [0x0A]) + after;
            data == before + length + ([0x20] + body + [0x0A] + after) &&
            data == before + (length + [0x20]) + (body + [0x0A] + after) &&
            data == (before + (length + [0x20])) + body + ([0x0A] + after)
  {
  }

  lemma PaxRecordShape(key: bytes, value: bytes) returns (length: bytes)
    requires |PaxRecord(key, value)| < U64
    ensures PaxRecord(key, value) == length + [0x20] + (key + [0x3D] + value) + [0x0A]
    ensures Stoull(length) == Some(|PaxRecord(key, value)|) && 0x20 !in length && |PaxRecord(key, value)| > 0
  {
    hide Stoull, Decimal;
    var record := PaxRecord(key, value);
    length :| record == length + [0x20] + key + [0x3D] + value + [0x0A] && length == Decimal(|record|);
    StoullDecimal(|record|);
    assert record == length + [0x20] + (key + [0x3D] + value) + [0x0A];
  }

  lemma StepReadsRecord(before: bytes, key: bytes, value: bytes, after: bytes)
    requires 0x3D !in key
    requires |before| + |PaxRecord(key, value)| + |after| < U64
    ensures |PaxRecord(key, value)| > 0
    ensures StepPax(before + PaxRecord(key, value) + after, |before|)
         == Record(map[key := value], |before| + |PaxRecord(key, value)|)
  {
    hide *;
    var record := PaxRecord(key, value);
    var length := PaxRecordShape(key, value);
    var body := key + [0x3D] + value;
    var data := before + record + after;
    Regroup(before, length, body, after);
    assert data[|before|..|before| + |length|] == length by {
      MiddleOf(data, before, length, [0x20] + body + [0x0A] + after);
    }
    assert Find(data, 0x20, |before|) == |before| + |length| by {
      FindAfter(data, before, length, 0x20, body + [0x0A] + after);
    }
    assert data[|before| + |length| + 1..|before| + |length| + 1 + |body|] == body by {
      MiddleOf(data, before + (length + [0x20]), body, [0x0A] + after);
    }
    assert Find(body, 0x3D, 0) == |key| by {
      assert body == [] + (key + [0x3D]) + value;
      FindAfter(body, [], key, 0x3D, value);
    }
    assert body[..|key|] == key;
    assert body[|key| + 1..] == value;
    StepAt(data, |before|, |record|, |before| + |length|, body);
  }

  /** The turn at a well-placed record. */
  lemma StepAt(data: bytes, pos: nat, length: nat, space: nat, body: bytes)
    requires pos < space < |data| < U64 && Find(data, 0x20, pos) == space
    requires Stoull(data[pos..space]) == Some(length)
    requires length == (space - pos) + 2 + |body| && pos + length <= |data| && |body| > 0
    requires data[space + 1..space + 1 + |body|] == body
    ensures var equals := Find(body, 0x3D, 0);
            equals < |body| ==>
              StepPax(data, pos) == Record(map[body[..equals] := body[equals + 1..]], pos + length)
  {
    hide Stoull, Find;
  }

  /** Reading back: the loop over written records ends with their meaning added to what it had. */
  lemma {:induction false} ReadsBack(before: bytes, records: seq<(bytes, bytes)>, fields: map<bytes, bytes>, steps: nat)
    requires forall i :: 0 <= i < |records| ==> 0x3D !in records[i].0
    requires |before + WritePax(records)| < U64 && |WritePax(records)| <= steps
    ensures RunPax(before + WritePax(records), |before|, fields, steps) == Done(PaxMeaning(fields, records))
    decreases |records|
  {
    hide StepPax, PaxRecord;
    var data := before + WritePax(records);
    if records != [] {
      var (key, value) := records[0];
      var record := PaxRecord(key, value);
      var after := WritePax(records[1..]);
      assert data == before + record + after;
      StepReadsRecord(before, key, value, after);
      assert data == (before + record) + after;
      ReadsBack(before + record, records[1..], fields[key := value], steps - 1);
      assert fields + map[key := value] == fields[key := value];
    }
  }

  lemma ParsesWritten(records: seq<(bytes, bytes)>, fields: map<bytes, bytes>)
    requires forall i :: 0 <= i < |records| ==> 0x3D !in records[i].0
    requires |WritePax(records)| < U64
    ensures ParsePax(WritePax(records), fields) == Done(PaxMeaning(fields, records))
  {
    assert [] + WritePax(records) == WritePax(records);
    ReadsBack([], records, fields, |WritePax(records)|);
  }
}
