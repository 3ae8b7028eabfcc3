/** How a child process gets its standard streams: the descriptor table of the process, the calls
    that change it, and the order in which `run`, `runToFile` and `runFromFile` make them. */
module ChildDescriptors {
  import opened Wrappers

  /** What a descriptor refers to. `Other` is anything the process had open before the call. */
  datatype File = NullInput | InputFile | OutputFile | InputPipe(end: End) | OutputPipe(end: End) | ErrorPipe(end: End)
                | Other(id: int)
  datatype End = ReadEnd | WriteEnd

  datatype Slot = Slot(file: File, closeOnExec: bool)
  type Slots = map<nat, Slot>

  /** The lowest descriptor number from `from` on that is not in use. */
  function LowestFree(slots: Slots, from: nat): (fd: nat)
    ensures from <= fd && fd !in slots
    ensures forall k :: from <= k < fd ==> k in slots
    decreases |slots|
  {
    if from !in slots then from
    else
      var fd := LowestFree(slots - {from}, from + 1);
      assert forall k | from <= k < fd :: k in slots by {
        forall k | from <= k < fd ensures k in slots { if k != from { assert k in slots - {from}; } }
      }
      fd
  }

  /** The k-th lowest number not in use, counting from 0. */
  function NthFree(slots: Slots, k: nat): (fd: nat)
    ensures fd !in slots
  {
    if k == 0 then LowestFree(slots, 0) else LowestFree(slots, NthFree(slots, k - 1) + 1)
  }

  /** The table after these files have been opened one after the other, close-on-exec, each at the lowest
      number free. */
  function Opened(slots: Slots, files: seq<File>): (after: Slots)
  {
    if files == [] then slots
    else Opened(slots, files[..|files| - 1])[NthFree(slots, |files| - 1) := Slot(files[|files| - 1], true)]
  }

  /** Descriptors are handed out in ascending order as long as none is closed. */
  lemma {:induction false} FreeAscends(slots: Slots, j: nat, k: nat)
    requires j < k
    ensures NthFree(slots, j) < NthFree(slots, k) && NthFree(slots, j) !in slots
    decreases k
  {
    hide LowestFree;
    if j < k - 1 { FreeAscends(slots, j, k - 1); }
  }

  /** Every number below the k-th free one is either in use already or one of the k before it. */
  lemma {:induction false} BelowFree(slots: Slots, k: nat, fd: nat)
    requires fd < NthFree(slots, k)
    ensures fd in slots || exists j :: 0 <= j < k && NthFree(slots, j) == fd
  {
    hide LowestFree;
    if k > 0 && fd !in slots {
      if fd < NthFree(slots, k - 1) { BelowFree(slots, k - 1, fd); }
      else { assert NthFree(slots, k - 1) == fd; }
    }
  }

  lemma {:induction false} OpenedKeys(slots: Slots, files: seq<File>, fd: nat)
    ensures fd in Opened(slots, files) <==> fd in slots || exists j :: 0 <= j < |files| && NthFree(slots, j) == fd
  {
    hide LowestFree, NthFree;
    if files != [] {
      var last := |files| - 1;
      OpenedKeys(slots, files[..last], fd);
      assert fd in Opened(slots, files) <==> fd in Opened(slots, files[..last]) || fd == NthFree(slots, last);
      assert (exists j :: 0 <= j < |files| && NthFree(slots, j) == fd)
        <==> (exists j :: 0 <= j < last && NthFree(slots, j) == fd) || NthFree(slots, last) == fd;
    }
  }

  /** The next number the kernel hands out is the next free one of the table the call started with. */
  lemma NextFree(slots: Slots, files: seq<File>)
    ensures LowestFree(Opened(slots, files), 0) == NthFree(slots, |files|)
  {
    var now := Opened(slots, files);
    var next := NthFree(slots, |files|);
    var low := LowestFree(now, 0);
    OpenedKeys(slots, files, low);
    OpenedKeys(slots, files, next);
    forall j | 0 <= j < |files| ensures NthFree(slots, j) != next { FreeAscends(slots, j, |files|); }
    if low < next { BelowFree(slots, |files|, low); }
  }

  /** Opening one more file after others. */
  lemma OpensNext(slots: Slots, files: seq<File>, file: File)
    ensures Opened(slots, files + [file]) == Opened(slots, files)[NthFree(slots, |files|) := Slot(file, true)]
  {
    assert (files + [file])[..|files|] == files;
  }

  // ---------------------------------------------------------------- the kernel's table

  class Table {
    var slots: Slots
    const limit: nat

    constructor (slots: Slots, limit: nat)
      ensures this.slots == slots && this.limit == limit
    {
      this.slots := slots;
      this.limit := limit;
    }

    /** `open(..., O_CLOEXEC)`: the lowest free number, or -1 when none is left below the limit. */
    method Open(file: File) returns (fd: int)
      modifies this
      ensures var free := LowestFree(old(slots), 0);
              if free < limit then fd == free && slots == old(slots)[free := Slot(file, true)]
              else fd == -1 && slots == old(slots)
    {
      var free := LowestFree(slots, 0);
      if free >= limit { return -1; }
      slots := slots[free := Slot(file, true)];
      return free;
    }

    /** `pipe2(fds, O_CLOEXEC)`: two numbers or neither. */
    method Pipe2(readFile: File, writeFile: File) returns (readFd: int, writeFd: int)
      modifies this
      ensures var first := LowestFree(old(slots), 0);
              var second := LowestFree(old(slots)[first := Slot(readFile, true)], 0);
              if second < limit then
                readFd == first && writeFd == second && first < second &&
                slots == old(slots)[first := Slot(readFile, true)][second := Slot(writeFile, true)]
              else readFd == -1 && writeFd == -1 && slots == old(slots)
    {
      var first := LowestFree(slots, 0);
      var second := LowestFree(slots[first := Slot(readFile, true)], 0);
      if second >= limit { return -1, -1; }
      slots := slots[first := Slot(readFile, true)][second := Slot(writeFile, true)];
      return first, second;
    }

    method Close(fd: nat)
      modifies this
      ensures slots == old(slots) - {fd}
    {
      slots := slots - {fd};
    }

    /** `dup2`: the target refers to what the source does, and stays open across exec. */
    method Dup2(source: int, target: nat)
      modifies this
      ensures slots == if source >= 0 && source in old(slots) && target < limit
                       then old(slots)[target := Slot(old(slots)[source].file, false)] else old(slots)
    {
      if source >= 0 && source in slots && target < limit {
        slots := slots[target := Slot(slots[source].file, false)];
      }
    }

    /** `fcntl(source, F_DUPFD, least)`. */
    method DupFrom(source: nat, least: nat) returns (fd: int)
      modifies this
      ensures var free := LowestFree(old(slots), least);
              if source in old(slots) && free < limit then
                fd == free && slots == old(slots)[free := Slot(old(slots)[source].file, false)]
              else fd == -1 && slots == old(slots)
    {
      var free := LowestFree(slots, least);
      if source !in slots || free >= limit { return -1; }
      slots := slots[free := Slot(slots[source].file, false)];
      return free;
    }

    /** Clears the close-on-exec flag of an open descriptor. */
    method KeepAcrossExec(fd: nat)
      modifies this
      ensures slots == if fd in old(slots) then old(slots)[fd := Slot(old(slots)[fd].file, false)] else old(slots)
    {
      if fd in slots { slots := slots[fd := Slot(slots[fd].file, false)]; }
    }

    /** `fork`: the child's copy. */
    method Fork() returns (child: Table)
      ensures fresh(child) && child.slots == slots && child.limit == limit
    {
      child := new Table(slots, limit);
    }
  }

  /** What exec leaves of a table. */
  function AfterExec(slots: Slots): Slots {
    map fd | fd in slots && !slots[fd].closeOnExec :: slots[fd]
  }

  // ---------------------------------------------------------------- descriptors owned by objects

  class Fd {
    var fd: int

    constructor (fd: int)
      ensures this.fd == fd
    {
      this.fd := fd;
    }

    method Close(table: Table)
      modifies this, table
      ensures fd == if old(fd) >= 0 then -1 else old(fd)
      ensures table.slots == old(table.slots) - {old(fd)}
    {
      if fd >= 0 {
        table.Close(fd);
        fd := -1;
      }
    }

    method Release() returns (was: int)
      modifies this
      ensures was == old(fd) && fd == -1
    {
      was := fd;
      fd := -1;
    }
  }

  /** What redirecting does to the table, whatever numbers are involved: the source is gone and the
      target refers to what it did. */
  function Redirected(slots: Slots, source: nat, target: nat): Slots
    requires source in slots
  {
    (slots - {source})[target := Slot(slots[source].file, false)]
  }

  /** Points `target` at `source` and drops `source`. The source is moved to a number of 3 or more
      first if it sits in a standard slot; the outcome does not depend on whether that succeeds. */
  method Redirect(table: Table, source: Fd, target: nat)
    requires source.fd >= 0 && source.fd in table.slots && target < 3 && target < table.limit
    modifies table, source
    ensures source.fd == -1
    ensures table.slots == Redirected(old(table.slots), old(source.fd), target)
  {
    if source.fd == target {
      table.KeepAcrossExec(target);
      var _ := source.Release();
      return;
    }
    if source.fd >= 0 && source.fd < 3 {
      var relocated := table.DupFrom(source.fd, 3);
      if relocated >= 0 {
        source.Close(table);
        source.fd := relocated;
      }
    }
    table.Dup2(source.fd, target);
    source.Close(table);
  }

  /** A pair of descriptors for the two ends of a pipe. */
  class Pipe {
    const read: Fd
    const write: Fd

    constructor ()
      ensures fresh(read) && fresh(write) && read != write && read.fd == -1 && write.fd == -1
    {
      var r := new Fd(-1);
      var w := new Fd(-1);
      read, write := r, w;
    }

    /** `initial` and `files` say what has been opened so far, and in which order. */
    method Open(table: Table, readFile: File, writeFile: File, ghost initial: Slots, ghost files: seq<File>)
      returns (ok: bool)
      requires read != write && read.fd == -1 && write.fd == -1
      requires table.slots == Opened(initial, files)
      modifies read, write, table
      ensures ok == (NthFree(initial, |files| + 1) < table.limit)
      ensures ok ==> read.fd == NthFree(initial, |files|) && write.fd == NthFree(initial, |files| + 1)
      ensures ok ==> table.slots == Opened(initial, files + [readFile, writeFile])
      ensures !ok ==> read.fd == -1 && write.fd == -1 && table.slots == old(table.slots)
    {
      NextFree(initial, files);
      OpensNext(initial, files, readFile);
      NextFree(initial, files + [readFile]);
      OpensNext(initial, files + [readFile], writeFile);
      assert files + [readFile] + [writeFile] == files + [readFile, writeFile];
      var r, w := table.Pipe2(readFile, writeFile);
      if r < 0 { return false; }
      read.fd, write.fd := r, w;
      return true;
    }
  }

  // ---------------------------------------------------------------- what the child should see

  /** Exactly the three streams meant for the child; everything else is as it was before the call. With
      no input meant for it the child keeps the standard input of its parent. */
  function Intended(inherited: Slots, input: Option<File>, output: File, error: File): Slots {
    (if input.Some? then inherited[0 := Slot(input.value, false)] else inherited)
      [1 := Slot(output, false)][2 := Slot(error, false)]
  }

  /** The three redirects in the order the child makes them; a negative input means there is none. */
  function Wired(slots: Slots, input: int, output: nat, error: nat): Slots
    requires output in slots && error in slots && output != error && input != output && input != error
    requires input >= 0 ==> input in slots
    requires error > 1
  {
    var first := if input >= 0 then Redirected(slots, input, 0) else slots;
    Redirected(Redirected(first, output, 1), error, 2)
  }

  /** The redirects do not get in each other's way unless the output descriptor is number 0 and is
      overwritten by the input before its own turn comes. */
  lemma RedirectsAgree(slots: Slots, input: int, output: nat, error: nat)
    requires output in slots && error in slots && output != error && input != output && input != error
    requires input >= 0 ==> input in slots
    requires error > 1
    ensures (input >= 0 && output == 0) ==>
              Wired(slots, input, output, error) ==
              (slots - {input, 0, error})[1 := Slot(slots[input].file, false)][2 := Slot(slots[error].file, false)]
    ensures !(input >= 0 && output == 0) ==>
              Wired(slots, input, output, error) ==
              Intended(slots - {input, output, error}, if input >= 0 then Some(slots[input].file) else None,
                       slots[output].file, slots[error].file)
  {
  }

  /** Exec leaves the standard streams in place. */
  lemma IntendedSurvivesExec(slots: Slots, input: Option<File>, output: File, error: File)
    ensures AfterExec(Intended(slots, input, output, error)) == Intended(AfterExec(slots), input, output, error)
  {
  }

  /** Closing everything a call has opened leaves the table it started with. */
  lemma {:induction false} ClosesAll(slots: Slots, files: seq<File>, numbers: set<int>)
    requires forall j: nat :: j < |files| ==> NthFree(slots, j) in numbers
    requires forall fd: nat :: fd in numbers ==> fd !in slots
    ensures Opened(slots, files) - numbers == slots
  {
    var rest := Opened(slots, files) - numbers;
    forall fd: nat ensures fd in rest <==> fd in slots { OpenedKeys(slots, files, fd); }
    forall fd | fd in slots ensures rest[fd] == slots[fd] { OpenedKeeps(slots, files, fd); }
  }

  lemma {:induction false} OpenedKeeps(slots: Slots, files: seq<File>, fd: nat)
    requires fd in slots
    ensures fd in Opened(slots, files) && Opened(slots, files)[fd] == slots[fd]
  {
    if files != [] { OpenedKeeps(slots, files[..|files| - 1], fd); }
  }

  /** The k-th file opened sits at the k-th free number. */
  lemma {:induction false} OpenedAt(slots: Slots, files: seq<File>, k: nat)
    requires k < |files|
    ensures NthFree(slots, k) in Opened(slots, files)
    ensures Opened(slots, files)[NthFree(slots, k)] == Slot(files[k], true)
  {
    hide LowestFree, NthFree;
    if k < |files| - 1 {
      OpenedAt(slots, files[..|files| - 1], k);
      FreeAscends(slots, k, |files| - 1);
    }
  }

  lemma RedirectKeeps(slots: Slots, source: nat, target: nat, other: nat)
    requires source in slots && other in slots && other != source
    ensures other in Redirected(slots, source, target)
  {
  }

  /** The child's redirects: input if there is one, output, error. */
  method RedirectAll(child: Table, input: int, output: nat, error: nat)
    requires output in child.slots && error in child.slots && output != error && input != output && input != error
    requires input >= 0 ==> input in child.slots
    requires 1 < error && 2 < child.limit
    modifies child
    ensures child.slots == Wired(old(child.slots), input, output, error)
  {
    hide Redirected;
    if input >= 0 {
      RedirectKeeps(child.slots, input, 0, output);
      RedirectKeeps(child.slots, input, 0, error);
      var source := new Fd(input);
      Redirect(child, source, 0);
    }
    RedirectKeeps(child.slots, output, 1, error);
    var outW := new Fd(output);
    Redirect(child, outW, 1);
    var errW := new Fd(error);
    Redirect(child, errW, 2);
  }

  /** Exec after the three redirects leaves the child with `streams`. */
  ghost predicate Execs(slots: Slots, input: int, output: int, error: int, streams: Slots) {
    && output >= 0 && error > 1 && output in slots && error in slots && (input >= 0 ==> input in slots)
    && input != output && input != error && output != error
    && AfterExec(Wired(slots, input, output, error)) == streams
  }

  /** The child's table after it has closed the ends that are not its own and made its redirects, when
      the i-th, o-th and e-th file opened are its input, output and error: exec leaves it with exactly the
      streams meant for it, unless the output sits in slot 0 and an input replaces it there. */
  lemma ChildSees(slots: Slots, files: seq<File>, closed: set<int>, i: int, o: nat, e: nat)
    requires i < |files| && o < |files| && e < |files| && i != o && i != e && o != e
    requires forall j: nat :: j < |files| ==>
               if j == i || j == o || j == e then NthFree(slots, j) !in closed else NthFree(slots, j) in closed
    requires forall fd: nat :: fd in closed ==> fd !in slots
    requires e > 1
    ensures var streams := if i >= 0 && NthFree(slots, o) == 0
                             then AfterExec(slots)[1 := Slot(files[i], false)][2 := Slot(files[e], false)]
                             else Intended(AfterExec(slots), if i >= 0 then Some(files[i]) else None, files[o],
                                 files[e]);
            Execs(Opened(slots, files) - closed, if i >= 0 then NthFree(slots, i) else -1, NthFree(slots, o),
                  NthFree(slots, e), streams)
  {
    hide LowestFree, NthFree, Opened, Wired, Intended, AfterExec;
    NumbersDiffer(slots, e);
    NumbersDiffer(slots, o);
    OpenedAt(slots, files, o);
    OpenedAt(slots, files, e);
    if i >= 0 { OpenedAt(slots, files, i); NumbersDiffer(slots, i); }
    var output := NthFree(slots, o);
    var error := NthFree(slots, e);
    var input: int := if i >= 0 then NthFree(slots, i) else -1;
    var left := Opened(slots, files) - closed;
    RedirectsAgree(left, input, output, error);
    ClosesAll(slots, files, closed + {input, output, error});
    if i >= 0 && output == 0 {
      assert left - {input, 0, error} == slots;
      OverwrittenSurvivesExec(slots, files[i], files[e]);
    } else {
      assert left - {input, output, error} == slots;
      IntendedSurvivesExec(slots, if i >= 0 then Some(files[i]) else None, files[o], files[e]);
    }
  }

  lemma OverwrittenSurvivesExec(slots: Slots, output: File, error: File)
    ensures AfterExec(slots[1 := Slot(output, false)][2 := Slot(error, false)]) ==
            AfterExec(slots)[1 := Slot(output, false)][2 := Slot(error, false)]
  {
  }

  /** The numbers of different files differ, and the k-th one is at least k. */
  lemma {:induction false} NumbersDiffer(slots: Slots, k: nat)
    ensures NthFree(slots, k) >= k
    ensures forall j: nat :: j != k ==> NthFree(slots, j) != NthFree(slots, k)
  {
    hide LowestFree;
    if k > 0 {
      NumbersDiffer(slots, k - 1);
      FreeAscends(slots, k - 1, k);
    }
    forall j: nat | j != k ensures NthFree(slots, j) != NthFree(slots, k) {
      if j < k { FreeAscends(slots, j, k); } else { FreeAscends(slots, k, j); }
    }
  }

  // ---------------------------------------------------------------- run

  function Dropped(a: int, b: int, c: int): set<int> {
    {a, b, c}
  }

  /** Forks; the child, on its own copies of the descriptor objects, drops the ends that belong to its
      parent (a negative number stands for an object that holds none), makes its redirects and execs. */
  method Spawn(table: Table, drop0: int, drop1: int, drop2: int, input: int, output: int, error: int,
               ghost expected: Slots)
    returns (streams: Slots)
    requires Execs(table.slots - Dropped(drop0, drop1, drop2), input, output, error, expected)
    requires error < table.limit
    ensures streams == expected
  {
    hide Wired, Redirected, LowestFree, AfterExec;
    var child := table.Fork();
    var fd0 := new Fd(drop0);
    var fd1 := new Fd(drop1);
    var fd2 := new Fd(drop2);
    fd0.Close(child);
    fd1.Close(child);
    fd2.Close(child);
    assert child.slots == table.slots - {drop0, drop1, drop2};
    RedirectAll(child, input, output, error);
    streams := AfterExec(child.slots);
  }

  /** Opens the null device as the input of a child that is given none. */
  method OpenNullInput(table: Table, opens: bool, ghost initial: Slots, ghost files: seq<File>) returns (input: Fd)
    requires table.slots == Opened(initial, files)
    modifies table
    ensures fresh(input)
    ensures if opens && NthFree(initial, |files|) < table.limit
            then input.fd == NthFree(initial, |files|) && table.slots == Opened(initial, files + [NullInput])
            else input.fd == -1 && table.slots == old(table.slots)
  {
    hide LowestFree, NthFree, Opened;
    input := new Fd(-1);
    NextFree(initial, files);
    OpensNext(initial, files, NullInput);
    if opens { input.fd := table.Open(NullInput); }
  }

  const INPUTS := [InputPipe(ReadEnd), InputPipe(WriteEnd)]
  const OUTPUTS := [OutputPipe(ReadEnd), OutputPipe(WriteEnd), ErrorPipe(ReadEnd), ErrorPipe(WriteEnd)]

  /** The pipes for a child's output and error. */
  method OpenOutputs(table: Table, out: Pipe, err: Pipe, ghost initial: Slots, ghost files: seq<File>)
    returns (ok: bool)
    requires table.slots == Opened(initial, files)
    requires out.read != out.write && err.read != err.write && {out.read, out.write} !! {err.read, err.write}
    requires out.read.fd == -1 && out.write.fd == -1 && err.read.fd == -1 && err.write.fd == -1
    modifies table, out.read, out.write, err.read, err.write
    ensures ok == (NthFree(initial, |files| + 3) < table.limit)
    ensures ok ==> table.slots == Opened(initial, files + OUTPUTS)
    ensures ok ==> out.read.fd == NthFree(initial, |files|) && out.write.fd == NthFree(initial, |files| + 1)
    ensures ok ==> err.read.fd == NthFree(initial, |files| + 2) && err.write.fd == NthFree(initial, |files| + 3)
    ensures !ok ==> err.read.fd == -1 && err.write.fd == -1 &&
                    if out.read.fd == -1 then out.write.fd == -1 && table.slots == Opened(initial, files)
                    else out.read.fd == NthFree(initial, |files|) && out.write.fd == NthFree(initial, |files| + 1) &&
                         table.slots == Opened(initial, files + OUTPUTS[..2])
  {
    hide LowestFree, NthFree, Opened;
    FreeAscends(initial, |files| + 1, |files| + 3);
    ok := out.Open(table, OUTPUTS[0], OUTPUTS[1], initial, files);
    if ok {
      assert OUTPUTS[..2] == [OUTPUTS[0], OUTPUTS[1]];
      assert files + [OUTPUTS[0], OUTPUTS[1]] + [OUTPUTS[2], OUTPUTS[3]] == files + OUTPUTS;
      ok := err.Open(table, OUTPUTS[2], OUTPUTS[3], initial, files + [OUTPUTS[0], OUTPUTS[1]]);
    }
  }

  lemma OpenedNothing(slots: Slots)
    ensures Opened(slots, []) == slots
  {
  }

  /** Closes the descriptors that are open among these, in the order given. */
  method CloseFour(table: Table, a: Fd, b: Fd, c: Fd, d: Fd)
    requires b !in {a} && c !in {a, b} && d !in {a, b, c}
    modifies table, a, b, c, d
    ensures table.slots == old(table.slots) - {old(a.fd), old(b.fd), old(c.fd), old(d.fd)}
  {
    a.Close(table);
    b.Close(table);
    assert table.slots == old(table.slots) - {old(a.fd), old(b.fd)};
    c.Close(table);
    d.Close(table);
  }

  /** The files `run` opens, in order. */
  function RunFiles(hasInput: bool, hasNull: bool): seq<File> {
    (if hasInput then INPUTS else []) + OUTPUTS + (if hasNull then [NullInput] else [])
  }

  /** What the child of `run` should read from: the data it is given, or else nothing at all. */
  function RunInput(hasInput: bool, hasNull: bool): Option<File> {
    if hasInput then Some(InputPipe(ReadEnd)) else if hasNull then Some(NullInput) else None
  }

  /** What the child of `run` execs with. */
  lemma RunSees(slots: Slots, hasInput: bool, hasNull: bool)
    requires hasInput ==> !hasNull
    ensures var base := if hasInput then 2 else 0;
            var left := Opened(slots, RunFiles(hasInput, hasNull)) -
                        Dropped(if hasInput then NthFree(slots, 1) else -1, NthFree(slots, base), NthFree(slots,
                            base + 2));
            Execs(left, if hasInput then NthFree(slots, 0) else if hasNull then NthFree(slots, 4) else -1,
                  NthFree(slots, base + 1), NthFree(slots, base + 3),
                  Intended(AfterExec(slots),
                           RunInput(hasInput, hasNull),
                           OutputPipe(WriteEnd), ErrorPipe(WriteEnd)))
  {
    hide LowestFree, NthFree, Opened, Wired, Intended, AfterExec;
    var base := if hasInput then 2 else 0;
    var closed := Dropped(if hasInput then NthFree(slots, 1) else -1, NthFree(slots, base), NthFree(slots, base + 2));
    forall j: nat ensures NthFree(slots, j) >= j && forall k: nat :: k != j ==> NthFree(slots, k) != NthFree(slots, j) {
      NumbersDiffer(slots, j);
    }
    ChildSees(slots, RunFiles(hasInput, hasNull), closed, if hasInput then 0 else if hasNull then 4 else -1,
              base + 1, base + 3);
  }

  /** At most six files opened, and their numbers closed in any order. */
  lemma Unwinds(slots: Slots, files: seq<File>, a: int, b: int, c: int, d: int, e: int, f: int)
    requires |files| <= 6
    requires a == if 0 < |files| then NthFree(slots, 0) else -1
    requires b == if 1 < |files| then NthFree(slots, 1) else -1
    requires c == if 2 < |files| then NthFree(slots, 2) else -1
    requires d == if 3 < |files| then NthFree(slots, 3) else -1
    requires e == if 4 < |files| then NthFree(slots, 4) else -1
    requires f == if 5 < |files| then NthFree(slots, 5) else -1
    ensures Opened(slots, files) - {a, b, c, d, e, f} == slots
  {
    hide LowestFree, NthFree, Opened;
    forall j: nat | j < |files| ensures NthFree(slots, j) in {a, b, c, d, e, f} {
      assert j == 0 || j == 1 || j == 2 || j == 3 || j == 4 || j == 5;
    }
    ClosesAll(slots, files, {a, b, c, d, e, f});
  }

  /** The pipes of `run`: all of them, or none and the table as it was. */
  method OpenPipes(table: Table, hasInput: bool, input: Pipe, out: Pipe, err: Pipe) returns (ok: bool)
    requires input.read != input.write && out.read !in {input.read, input.write}
    requires out.write !in {input.read, input.write, out.read}
    requires err.read !in {input.read, input.write, out.read, out.write}
    requires err.write !in {input.read, input.write, out.read, out.write, err.read}
    requires input.read.fd == -1 && input.write.fd == -1 && out.read.fd == -1 && out.write.fd == -1
    requires err.read.fd == -1 && err.write.fd == -1
    modifies table, input.read, input.write, out.read, out.write, err.read, err.write
    ensures ok == (NthFree(old(table.slots), if hasInput then 5 else 3) < table.limit)
    ensures table.slots == if ok then Opened(old(table.slots), RunFiles(hasInput, false)) else old(table.slots)
    ensures ok ==> if hasInput
                   then input.read.fd == NthFree(old(table.slots), 0) && input.write.fd == NthFree(old(table.slots), 1)
                   else input.read.fd == -1 && input.write.fd == -1
    ensures ok ==> var base := if hasInput then 2 else 0;
                   && out.read.fd == NthFree(old(table.slots), base)
                   && out.write.fd == NthFree(old(table.slots), base + 1)
                   && err.read.fd == NthFree(old(table.slots), base + 2)
                   && err.write.fd == NthFree(old(table.slots), base + 3)
  {
    hide LowestFree, NthFree, Opened;
    ghost var initial := table.slots;
    OpenedNothing(initial);
    ghost var files: seq<File> := [];
    if hasInput {
      FreeAscends(initial, 1, 5);
      ok := input.Open(table, INPUTS[0], INPUTS[1], initial, []);
      if !ok { return; }
      files := INPUTS;
      assert [] + [INPUTS[0], INPUTS[1]] == INPUTS;
    }
    ok := OpenOutputs(table, out, err, initial, files);
    if ok {
      assert files + OUTPUTS == RunFiles(hasInput, false);
    } else {
      files := if out.read.fd == -1 then files else files + OUTPUTS[..2];
      if hasInput { Unwinds(initial, files, input.read.fd, input.write.fd, out.read.fd, out.write.fd, -1, -1); }
      else { Unwinds(initial, files, out.read.fd, out.write.fd, -1, -1, -1, -1); }
      CloseFour(table, out.write, out.read, input.write, input.read);
    }
  }

  /** The parent's closes, and those that leaving the scope adds. */
  method CloseRun(table: Table, nullInput: Fd, input: Pipe, out: Pipe, err: Pipe, ghost hasInput: bool,
                  ghost initial: Slots)
    requires hasInput ==> nullInput.fd < 0
    requires table.slots == Opened(initial, RunFiles(hasInput, nullInput.fd >= 0))
    requires nullInput !in {input.read, input.write, out.read, out.write, err.read, err.write}
    requires input.read != input.write && out.read !in {input.read, input.write}
    requires out.write !in {input.read, input.write, out.read}
    requires err.read !in {input.read, input.write, out.read, out.write}
    requires err.write !in {input.read, input.write, out.read, out.write, err.read}
    requires nullInput.fd == if nullInput.fd >= 0 then NthFree(initial, 4) else -1
    requires input.read.fd == if hasInput then NthFree(initial, 0) else -1
    requires input.write.fd == if hasInput then NthFree(initial, 1) else -1
    requires out.read.fd == NthFree(initial, if hasInput then 2 else 0)
    requires out.write.fd == NthFree(initial, if hasInput then 3 else 1)
    requires err.read.fd == NthFree(initial, if hasInput then 4 else 2)
    requires err.write.fd == NthFree(initial, if hasInput then 5 else 3)
    modifies table, nullInput, input.read, input.write, out.read, out.write, err.read, err.write
    ensures table.slots == initial
  {
    hide LowestFree, NthFree, Opened;
    ghost var files := RunFiles(hasInput, nullInput.fd >= 0);
    if hasInput {
      Unwinds(initial, files, input.read.fd, input.write.fd, out.read.fd, out.write.fd, err.read.fd, err.write.fd);
    } else {
      Unwinds(initial, files, out.read.fd, out.write.fd, err.read.fd, err.write.fd, nullInput.fd, -1);
    }
    ghost var before := table.slots;
    ghost var first := {nullInput.fd, input.read.fd, out.write.fd, err.write.fd};
    ghost var numbers := first + {err.read.fd, out.read.fd, input.write.fd};
    assert before - numbers == initial;
    CloseFour(table, nullInput, input.read, out.write, err.write);
    err.read.Close(table);
    out.read.Close(table);
    input.write.Close(table);
    assert table.slots == before - numbers;
  }

  /** Runs a child with its output and error on pipes and, if it is given any, its input on a third. On
      every way out the parent is left with the descriptors it had. */
  method Run(table: Table, hasInput: bool, nullOpens: bool, forks: bool) returns (spawned: bool, streams: Slots)
    modifies table
    ensures table.slots == old(table.slots)
    ensures spawned == (forks && NthFree(old(table.slots), if hasInput then 5 else 3) < table.limit)
    ensures spawned ==>
              var hasNull := nullOpens && NthFree(old(table.slots), 4) < table.limit;
              streams == Intended(AfterExec(old(table.slots)), RunInput(hasInput, hasNull),
                                  OutputPipe(WriteEnd), ErrorPipe(WriteEnd))
  {
    hide LowestFree, NthFree, Opened, Wired, Intended, AfterExec, Execs;
    ghost var initial := table.slots;
    spawned, streams := false, map[];
    var inPipe := new Pipe();
    var outPipe := new Pipe();
    var errPipe := new Pipe();
    var ok := OpenPipes(table, hasInput, inPipe, outPipe, errPipe);
    if !ok { return; }
    ghost var files := RunFiles(hasInput, false);
    var nullInput := new Fd(-1);
    if !hasInput { nullInput := OpenNullInput(table, nullOpens, initial, files); }
    files := if nullInput.fd == -1 then files else files + [NullInput];
    assert files == RunFiles(hasInput, nullInput.fd >= 0);
    if forks {
      spawned := true;
      RunSees(initial, hasInput, nullInput.fd >= 0);
      streams := Spawn(table, inPipe.write.fd, outPipe.read.fd, errPipe.read.fd,
                       if hasInput then inPipe.read.fd else nullInput.fd, outPipe.write.fd, errPipe.write.fd,
                       Intended(AfterExec(initial), RunInput(hasInput, nullInput.fd >= 0),
                                OutputPipe(WriteEnd), ErrorPipe(WriteEnd)));
    }

    CloseRun(table, nullInput, inPipe, outPipe, errPipe, hasInput, initial);
  }

  // ---------------------------------------------------------------- runToFile and runFromFile

  /** Opens a file by path: it may be refused for reasons of its own. */
  method OpenFile(table: Table, file: File, opens: bool) returns (fd: Fd)
    modifies table
    ensures fresh(fd)
    ensures if opens && NthFree(old(table.slots), 0) < table.limit
            then fd.fd == NthFree(old(table.slots), 0) && table.slots == Opened(old(table.slots), [file])
            else fd.fd == -1 && table.slots == old(table.slots)
  {
    fd := new Fd(-1);
    if opens { fd.fd := table.Open(file); }
  }

  /** What the child of `runToFile` execs with. */
  function ToFileStreams(slots: Slots, hasNull: bool): Slots {
    if hasNull && 0 !in slots
    then AfterExec(slots)[1 := Slot(NullInput, false)][2 := Slot(ErrorPipe(WriteEnd), false)]
    else Intended(AfterExec(slots), if hasNull then Some(NullInput) else None, OutputFile, ErrorPipe(WriteEnd))
  }

  lemma FirstFree(slots: Slots)
    ensures NthFree(slots, 0) == 0 <==> 0 !in slots
  {
  }

  lemma ToFileSees(slots: Slots, hasNull: bool)
    ensures var files := [OutputFile, ErrorPipe(ReadEnd), ErrorPipe(WriteEnd)] + if hasNull then [NullInput] else [];
            var dropped := Dropped(NthFree(slots, 1), -1, -1);
            Execs(Opened(slots, files) - dropped, if hasNull then NthFree(slots, 3) else -1,
                  NthFree(slots, 0), NthFree(slots, 2), ToFileStreams(slots, hasNull))
  {
    hide LowestFree, NthFree, Opened, Wired, Intended, AfterExec;
    FirstFree(slots);
    forall j: nat ensures NthFree(slots, j) >= j && forall k: nat :: k != j ==> NthFree(slots, k) != NthFree(slots, j) {
      NumbersDiffer(slots, j);
    }
    var files := [OutputFile, ErrorPipe(ReadEnd), ErrorPipe(WriteEnd)] + if hasNull then [NullInput] else [];
    var dropped := Dropped(NthFree(slots, 1), -1, -1);
    ChildSees(slots, files, dropped, if hasNull then 3 else -1, 0, 2);
  }

  method RunToFile(table: Table, fileOpens: bool, nullOpens: bool, forks: bool)
    returns (spawned: bool, streams: Slots)
    modifies table
    ensures table.slots == old(table.slots)
    ensures spawned == (fileOpens && forks && NthFree(old(table.slots), 2) < table.limit)
    ensures spawned ==>
              streams == ToFileStreams(old(table.slots), nullOpens && NthFree(old(table.slots), 3) < table.limit)
  {
    hide LowestFree, NthFree, Opened, Wired, Intended, AfterExec, Execs, ToFileStreams;
    ghost var initial := table.slots;
    FreeAscends(initial, 0, 2);
    OpenedNothing(initial);
    spawned, streams := false, map[];
    var outFile := OpenFile(table, OutputFile, fileOpens);
    if outFile.fd < 0 { return; }
    var errPipe := new Pipe();
    ghost var files := [OutputFile];
    var ok := errPipe.Open(table, ErrorPipe(ReadEnd), ErrorPipe(WriteEnd), initial, files);
    if !ok {
      Unwinds(initial, files, outFile.fd, -1, -1, -1, -1, -1);
      outFile.Close(table);
      return;
    }
    files := files + [ErrorPipe(ReadEnd), ErrorPipe(WriteEnd)];
    var nullInput := OpenNullInput(table, nullOpens, initial, files);
    files := if nullInput.fd == -1 then files else files + [NullInput];
    if forks {
      spawned := true;
      ghost var hasNull := nullInput.fd >= 0;
      assert files == [OutputFile, ErrorPipe(ReadEnd), ErrorPipe(WriteEnd)] + if hasNull then [NullInput] else [];
      ToFileSees(initial, hasNull);
      streams := Spawn(table, errPipe.read.fd, -1, -1, nullInput.fd, outFile.fd, errPipe.write.fd,
                       ToFileStreams(initial, hasNull));
    }
    Unwinds(initial, files, outFile.fd, errPipe.read.fd, errPipe.write.fd, nullInput.fd, -1, -1);
    CloseFour(table, nullInput, outFile, errPipe.write, errPipe.read);
  }

  /** The child writes to the file exactly if descriptor 0 was open at the call, or nothing could be put
      on its input. */
  lemma WritesToFileIff(slots: Slots, hasNull: bool)
    ensures var streams := ToFileStreams(slots, hasNull);
            streams == Intended(AfterExec(slots), if hasNull then Some(NullInput) else None, OutputFile,
                ErrorPipe(WriteEnd))
            <==> 0 in slots || !hasNull
    ensures 1 in ToFileStreams(slots, hasNull)
    ensures ToFileStreams(slots, hasNull)[1].file == OutputFile <==> 0 in slots || !hasNull
  {
    assert 1 in Intended(AfterExec(slots), None, OutputFile, ErrorPipe(WriteEnd));
    assert ToFileStreams(slots, hasNull)[1].file == if hasNull && 0 !in slots then NullInput else OutputFile;
    assert Intended(AfterExec(slots), if hasNull then Some(NullInput) else None, OutputFile,
        ErrorPipe(WriteEnd))[1].file == OutputFile;
  }

  /** With descriptor 0 closed at the call, nothing the child writes to its output arrives in the file, and
      it has no input either. */
  lemma ClosedInputLosesOutput(slots: Slots)
    requires 0 !in slots && forall fd | fd in slots :: slots[fd].file != OutputFile
    ensures forall fd | fd in ToFileStreams(slots, true) :: ToFileStreams(slots, true)[fd].file != OutputFile
    ensures 0 !in ToFileStreams(slots, true) && ToFileStreams(slots, true)[1].file == NullInput
  {
  }

  lemma FromFileSees(slots: Slots)
    ensures var dropped := Dropped(NthFree(slots, 1), NthFree(slots, 3), -1);
            Execs(Opened(slots, [InputFile] + OUTPUTS) - dropped, NthFree(slots, 0),
                  NthFree(slots, 2), NthFree(slots, 4),
                  Intended(AfterExec(slots), Some(InputFile), OutputPipe(WriteEnd), ErrorPipe(WriteEnd)))
  {
    hide LowestFree, NthFree, Opened, Wired, Intended, AfterExec;
    forall j: nat ensures NthFree(slots, j) >= j && forall k: nat :: k != j ==> NthFree(slots, k) != NthFree(slots, j) {
      NumbersDiffer(slots, j);
    }
    var dropped := Dropped(NthFree(slots, 1), NthFree(slots, 3), -1);
    ChildSees(slots, [InputFile] + OUTPUTS, dropped, 0, 2, 4);
  }

  method RunFromFile(table: Table, fileOpens: bool, forks: bool) returns (spawned: bool, streams: Slots)
    modifies table
    ensures table.slots == old(table.slots)
    ensures spawned == (fileOpens && forks && NthFree(old(table.slots), 4) < table.limit)
    ensures spawned ==> streams == Intended(AfterExec(old(table.slots)), Some(InputFile), OutputPipe(WriteEnd),
                                            ErrorPipe(WriteEnd))
  {
    hide LowestFree, NthFree, Opened, Wired, Intended, AfterExec, Execs;
    ghost var initial := table.slots;
    FreeAscends(initial, 0, 4);
    OpenedNothing(initial);
    spawned, streams := false, map[];
    var inFile := OpenFile(table, InputFile, fileOpens);
    if inFile.fd < 0 { return; }
    var outPipe := new Pipe();
    var errPipe := new Pipe();
    ghost var files := [InputFile];
    var ok := OpenOutputs(table, outPipe, errPipe, initial, files);
    files := if ok then files + OUTPUTS else if outPipe.read.fd == -1 then files else files + OUTPUTS[..2];
    if ok && forks {
      spawned := true;
      FromFileSees(initial);
      streams := Spawn(table, outPipe.read.fd, errPipe.read.fd, -1, inFile.fd, outPipe.write.fd, errPipe.write.fd,
                       Intended(AfterExec(initial), Some(InputFile), OutputPipe(WriteEnd), ErrorPipe(WriteEnd)));
    }
    Unwinds(initial, files, inFile.fd, outPipe.read.fd, outPipe.write.fd, errPipe.read.fd, errPipe.write.fd, -1);
    CloseFour(table, inFile, outPipe.write, errPipe.write, errPipe.read);
    outPipe.read.Close(table);
  }
}
