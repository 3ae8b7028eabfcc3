/** The one job the GUI may have in flight: the fields guarded by the runner's mutex, and the protocol by
    which request threads and the worker of each job change them and the two things they share besides,
    the process-wide cancel flag and the logger's sinks. */
module JobRunner {
  import opened Wrappers

  datatype Status = Idle | Running | Succeeded | Failed | Cancelled
  datatype Line = Line(level: string, text: string)
  datatype Progress = Progress(step: string, done: int, total: int, item: string)
  datatype Outcome = Outcome(success: bool, text: string)

  const NO_PROGRESS := Progress("", 0, 0, "")

  // ---------------------------------------------------------------- what the mutex guards

  datatype Fields = Fields(running: bool, present: bool, cancelling: bool, id: nat, kind: string, target: string,
                           status: Status, log: seq<Line>, progress: Progress, result: Option<Outcome>)

  const FRESH := Fields(false, false, false, 0, "", "", Idle, [], NO_PROGRESS, None)

  /** A new job takes over the fields. */
  function Begun(f: Fields, kind: string, target: string): Fields {
    Fields(true, true, false, f.id + 1, kind, target, Running, [], NO_PROGRESS, None)
  }

  function Finished(f: Fields, status: Status, result: Option<Outcome>): Fields {
    f.(status := status, result := result, running := false)
  }

  function Dismissed(f: Fields): Fields {
    f.(present := false, log := [], result := None)
  }

  /** Every line recorded at or after `since`. */
  function LinesSince(f: Fields, since: nat): seq<Line> {
    if since < |f.log| then f.log[since..] else []
  }

  /** The process-wide cancel flag. */
  class CancelFlag {
    var raised: bool

    constructor ()
      ensures !raised
    {
      raised := false;
    }
  }

  /** The object itself. Each method body is a critical section; times are given as text. */
  class Runner {
    var running: bool
    var present: bool
    var cancelling: bool
    var id: nat
    var kind: string
    var target: string
    var status: Status
    var startedAt: string
    var finishedAt: string
    var log: seq<Line>
    var progress: Progress
    var result: Option<Outcome>

    ghost function Value(): Fields
      reads this
    {
      Fields(running, present, cancelling, id, kind, target, status, log, progress, result)
    }

    constructor ()
      ensures Value() == FRESH && startedAt == "" && finishedAt == ""
    {
      running, present, cancelling, id, kind, target := false, false, false, 0, "", "";
      startedAt, finishedAt := "", "";
      status, log, progress, result := Idle, [], NO_PROGRESS, None;
    }

    /** Makes a new job the current one, unless one is running. Its thread is created after this. */
    method Start(newKind: string, newTarget: string, now: string, flag: CancelFlag) returns (started: bool)
      modifies this, flag
      ensures started == !old(running)
      ensures Value() == if started then Begun(old(Value()), newKind, newTarget) else old(Value())
      ensures started ==>
                && running && present && !cancelling && id == old(id) + 1 && kind == newKind && target == newTarget
                && status == Running && log == [] && progress == Progress("", 0, 0, "") && result.None?
      ensures startedAt == (if started then now else old(startedAt))
      ensures finishedAt == (if started then "" else old(finishedAt))
      ensures flag.raised == (!started && old(flag.raised))
    {
      if running { return false; }
      Begin(newKind, newTarget, now);
      flag.raised := false;
      return true;
    }

    method Begin(newKind: string, newTarget: string, now: string)
      modifies this
      ensures Value() == Begun(old(Value()), newKind, newTarget) && startedAt == now && finishedAt == ""
    {
      Name(newKind, newTarget, now);
      log := [];
      result := None;
      running := true;
      present := true;
      cancelling := false;
      progress := NO_PROGRESS;
    }

    method Name(newKind: string, newTarget: string, now: string)
      modifies this`id, this`kind, this`target, this`status, this`startedAt, this`finishedAt
      ensures id == old(id) + 1 && kind == newKind && target == newTarget && status == Running
      ensures startedAt == now && finishedAt == ""
    {
      id := id + 1;
      kind := newKind;
      target := newTarget;
      status := Running;
      startedAt := now;
      finishedAt := "";
    }

    method Cancel(flag: CancelFlag) returns (asked: bool)
      modifies this`cancelling, flag
      ensures asked == old(running)
      ensures Value() == if asked then old(Value()).(cancelling := true) else old(Value())
      ensures flag.raised == (asked || old(flag.raised))
    {
      if !running { return false; }
      cancelling := true;
      flag.raised := true;
      return true;
    }

    method Dismiss() returns (gone: bool)
      modifies this`present, this`log, this`result
      ensures gone == !old(running)
      ensures Value() == if gone then Dismissed(old(Value())) else old(Value())
      ensures gone ==> !present && log == [] && result.None?
    {
      if running { return false; }
      present := false;
      log := [];
      result := None;
      return true;
    }

    method Append(line: Line)
      modifies this`log
      ensures Value() == old(Value()).(log := old(log) + [line])
    {
      log := log + [line];
    }

    method Finish(newStatus: Status, newResult: Option<Outcome>, now: string)
      modifies this`status, this`result, this`finishedAt, this`running
      ensures Value() == Finished(old(Value()), newStatus, newResult) && finishedAt == now
      ensures status == newStatus && result == newResult && !running
    {
      status := newStatus;
      result := newResult;
      finishedAt := now;
      running := false;
    }

    method NewLines(since: nat) returns (lines: seq<Line>)
      ensures lines == LinesSince(Value(), since)
    {
      lines := [];
      var i := if since < |log| then since else |log|;
      ghost var first := i;
      while i < |log|
        invariant first <= i <= |log| && lines == log[first..i]
      {
        lines := lines + [log[i]];
        i := i + 1;
      }
    }
  }

  // ---------------------------------------------------------------- threads

  /** Where a job's worker is; each value names what it does next. */
  datatype WorkerPc = Install | InstallProgress | Working | Reporting(text: string) | Uninstall | UninstallProgress
                    | ReadFlag | ClearFlag | Finish | Leaving | Ended

  /** `asked` remembers whether a cancel arrived before the worker looked for one. */
  datatype Worker = Worker(pc: WorkerPc, status: Status, result: Option<Outcome>, asked: bool)

  predicate BeforeFinish(pc: WorkerPc) {
    !pc.Leaving? && !pc.Ended?
  }

  predicate BeforeLook(pc: WorkerPc) {
    BeforeFinish(pc) && !pc.ClearFlag? && !pc.Finish?
  }

  /** Where a request thread is. `Joining`, `Clearing` and `Spawning` are inside `start`, mutex in hand;
      `Waiting` is inside `join`, mutex released; `Appending` has copied a sink and is about to call it. */
  datatype RequestPc = Free | Joining(kind: string, target: string) | Clearing | Spawning | Waiting(job: nat)
                     | Appending(line: Line)

  predicate InStart(pc: RequestPc) {
    pc.Joining? || pc.Clearing? || pc.Spawning?
  }

  /** Job numbers count from 0: `workers[j]` runs job `j`, and sinks and cancel requests carry the number
      of the job they belong to. `late` remembers a cancel that found its job past the point where the
      worker clears the flag. */
  datatype State = State(fields: Fields, lock: Option<nat>, handle: Option<nat>, flag: Option<nat>, sink: Option<nat>,
                         progressSink: Option<nat>, workers: seq<Worker>, requests: map<nat, RequestPc>, late: bool)

  const INITIAL := State(FRESH, None, None, None, None, None, [], map[], false)

  function PcOf(s: State, t: nat): RequestPc {
    if t in s.requests then s.requests[t] else Free
  }

  datatype Step =
    | StartEnter(t: nat, kind: string, target: string) | StartJoined(t: nat) | StartClear(t: nat) | StartSpawn(t: nat)
    | CancelJob(t: nat) | DismissJob(t: nat) | JoinTake(t: nat) | JoinReturn(t: nat)
    | CopySink(t: nat, line: Line) | CallSink(t: nat)
    | SetSink(j: nat) | SetProgressSink(j: nat) | WorkLogs(j: nat, line: Line) | WorkProgresses(j: nat, p: Progress)
    | WorkReturns(j: nat, result: Option<Outcome>) | WorkThrows(j: nat, text: string) | ReportError(j: nat)
    | DropSink(j: nat) | DropProgressSink(j: nat) | LookAtFlag(j: nat) | DropFlag(j: nat) | FinishJob(j: nat)
    | EndThread(j: nat)

  predicate WorkerAt(s: State, j: nat, pc: WorkerPc) {
    j < |s.workers| && s.workers[j].pc == pc
  }

  /** The steps of the workers; all others are those of request threads. */
  predicate ByWorker(step: Step) {
    !(step.StartEnter? || step.StartJoined? || step.StartClear? || step.StartSpawn? || step.CancelJob?
      || step.DismissJob? || step.JoinTake? || step.JoinReturn? || step.CopySink? || step.CallSink?)
  }

  /** Whether a step can be taken. A critical section needs the mutex free; waiting for a thread needs the
      thread ended. */
  predicate RequestEnabled(s: State, step: Step)
    requires !ByWorker(step)
  {
    match step
    case StartEnter(t, _, _) => PcOf(s, t).Free? && s.lock.None?
    case StartJoined(t) =>
      PcOf(s, t).Joining? && (s.handle.Some? ==> s.handle.value < |s.workers| && s.workers[s.handle.value].pc.Ended?)
    case StartClear(t) => PcOf(s, t).Clearing?
    case StartSpawn(t) => PcOf(s, t).Spawning?
    case CancelJob(t) => PcOf(s, t).Free? && s.lock.None?
    case DismissJob(t) => PcOf(s, t).Free? && s.lock.None?
    case JoinTake(t) => PcOf(s, t).Free? && s.lock.None?
    case JoinReturn(t) => PcOf(s, t).Waiting? && PcOf(s, t).job < |s.workers| && s.workers[PcOf(s, t).job].pc.Ended?
    case CopySink(t, _) => PcOf(s, t).Free?
    case CallSink(t) => PcOf(s, t).Appending? && s.lock.None?
  }

  predicate WorkerEnabled(s: State, step: Step)
    requires ByWorker(step)
  {
    match step
    case SetSink(j) => WorkerAt(s, j, Install)
    case SetProgressSink(j) => WorkerAt(s, j, InstallProgress)
    case WorkLogs(j, _) => WorkerAt(s, j, Working) && s.lock.None?
    case WorkProgresses(j, _) => WorkerAt(s, j, Working) && s.lock.None?
    case WorkReturns(j, _) => WorkerAt(s, j, Working)
    case WorkThrows(j, _) => WorkerAt(s, j, Working)
    case ReportError(j) => j < |s.workers| && s.workers[j].pc.Reporting? && s.lock.None?
    case DropSink(j) => WorkerAt(s, j, Uninstall)
    case DropProgressSink(j) => WorkerAt(s, j, UninstallProgress)
    case LookAtFlag(j) => WorkerAt(s, j, ReadFlag)
    case DropFlag(j) => WorkerAt(s, j, ClearFlag)
    case FinishJob(j) => WorkerAt(s, j, Finish) && s.lock.None?
    case EndThread(j) => WorkerAt(s, j, Leaving)
  }

  predicate Enabled(s: State, step: Step) {
    if ByWorker(step) then WorkerEnabled(s, step) else RequestEnabled(s, step)
  }

  function MoveTo(s: State, t: nat, pc: RequestPc): State {
    s.(requests := s.requests[t := pc])
  }

  function WorkerTo(s: State, j: nat, pc: WorkerPc): State
    requires j < |s.workers|
  {
    s.(workers := s.workers[j := s.workers[j].(pc := pc)])
  }

  function AppendTo(s: State, line: Line): State {
    s.(fields := s.fields.(log := s.fields.log + [line]))
  }

  /** A cancel that finds a job running raises the flag on that job's account. */
  function AfterCancel(s: State): State {
    if !s.fields.running || s.workers == [] then s
    else
      var last := |s.workers| - 1;
      var w := s.workers[last];
      s.(fields := s.fields.(cancelling := true), flag := Some(last), late := s.late || w.pc.Finish?,
         workers := s.workers[last := w.(asked := w.asked || BeforeLook(w.pc))])
  }

  function DoRequest(s: State, step: Step): State
    requires !ByWorker(step) && RequestEnabled(s, step)
  {
    match step
    case StartEnter(t, kind, target) =>
      if s.fields.running then s else MoveTo(s.(lock := Some(t)), t, Joining(kind, target))
    case StartJoined(t) =>
      var pc := PcOf(s, t);
      MoveTo(s.(handle := None, fields := Begun(s.fields, pc.kind, pc.target)), t, Clearing)
    case StartClear(t) => MoveTo(s.(flag := None, late := false), t, Spawning)
    case StartSpawn(t) =>
      MoveTo(s.(lock := None, handle := Some(|s.workers|),
                workers := s.workers + [Worker(Install, Succeeded, None, false)]), t, Free)
    case CancelJob(t) => AfterCancel(s)
    case DismissJob(t) => if s.fields.running then s else s.(fields := Dismissed(s.fields))
    case JoinTake(t) => if s.handle.None? then s else MoveTo(s.(handle := None), t, Waiting(s.handle.value))
    case JoinReturn(t) => MoveTo(s, t, Free)
    case CopySink(t, line) => if s.sink.None? then s else MoveTo(s, t, Appending(line))
    case CallSink(t) => AppendTo(MoveTo(s, t, Free), PcOf(s, t).line)
  }

  function DoWork(s: State, step: Step): State
    requires ByWorker(step) && WorkerEnabled(s, step)
  {
    match step
    case SetSink(j) => WorkerTo(s.(sink := Some(j)), j, InstallProgress)
    case SetProgressSink(j) => WorkerTo(s.(progressSink := Some(j)), j, Working)
    case WorkLogs(j, line) => if s.sink.None? then s else AppendTo(s, line)
    case WorkProgresses(j, p) => if s.progressSink.None? then s else s.(fields := s.fields.(progress := p))
    case WorkReturns(j, result) =>
      var status := if result.Some? && !result.value.success then Failed else Succeeded;
      s.(workers := s.workers[j := s.workers[j].(pc := Uninstall, result := result, status := status)])
    case WorkThrows(j, text) => WorkerTo(s, j, Reporting(text))
    case ReportError(j) =>
      var failed := s.(workers := s.workers[j := s.workers[j].(pc := Uninstall, status := Failed)]);
      AppendTo(failed, Line("error", s.workers[j].pc.text))
    case DropSink(j) => WorkerTo(s.(sink := None), j, UninstallProgress)
    case DropProgressSink(j) => WorkerTo(s.(progressSink := None), j, ReadFlag)
    case LookAtFlag(j) =>
      var w := s.workers[j];
      s.(workers := s.workers[j := w.(pc := ClearFlag, status := if s.flag.Some? then Cancelled else w.status)])
    case DropFlag(j) => WorkerTo(s.(flag := None), j, Finish)
    case FinishJob(j) =>
      WorkerTo(s.(fields := Finished(s.fields, s.workers[j].status, s.workers[j].result)), j, Leaving)
    case EndThread(j) => WorkerTo(s, j, Ended)
  }

  function Do(s: State, step: Step): State
    requires Enabled(s, step)
  {
    if ByWorker(step) then DoWork(s, step) else DoRequest(s, step)
  }

  // ---------------------------------------------------------------- the invariant

  /** A start is past the point where it makes the new job current and has not created its worker. */
  predicate Starting(s: State) {
    s.lock.Some? && (PcOf(s, s.lock.value).Clearing? || PcOf(s, s.lock.value).Spawning?)
  }

  /** The worker of the newest job is before its finish. */
  predicate Active(s: State) {
    s.workers != [] && BeforeFinish(s.workers[|s.workers| - 1].pc)
  }

  /** One job at a time. */
  predicate OneJob(s: State) {
    && (forall j | 0 <= j < |s.workers| - 1 :: !BeforeFinish(s.workers[j].pc))
    && (s.fields.running <==> Active(s) || Starting(s))
    && !(Active(s) && Starting(s))
    && s.fields.id == |s.workers| + if Starting(s) then 1 else 0
  }

  /** Who holds the mutex between steps. */
  predicate LockHeld(s: State) {
    && (forall t | t in s.requests :: InStart(s.requests[t]) <==> s.lock == Some(t))
    && (s.lock.Some? ==> s.lock.value in s.requests)
    && (s.lock.Some? && s.requests[s.lock.value].Joining? ==> !s.fields.running)
  }

  /** Every thread has one owner until it has ended: the runner, or one caller of join. */
  ghost predicate Owned(s: State) {
    && (s.handle.Some? ==> s.handle.value < |s.workers|)
    && (Starting(s) ==> s.handle.None?)
    && (forall t | t in s.requests && s.requests[t].Waiting? ::
          s.requests[t].job < |s.workers| && s.handle != Some(s.requests[t].job))
    && (forall t, u | t in s.requests && u in s.requests && s.requests[t].Waiting? && s.requests[u].Waiting?
                      && s.requests[t].job == s.requests[u].job :: t == u)
    && (forall j: nat | j < |s.workers| && !s.workers[j].pc.Ended? ::
          s.handle == Some(j) || exists t :: t in s.requests && s.requests[t] == Waiting(j))
  }

  predicate HasSink(pc: WorkerPc) {
    pc.InstallProgress? || pc.Working? || pc.Reporting? || pc.Uninstall?
  }

  predicate HasProgressSink(pc: WorkerPc) {
    pc.Working? || pc.Reporting? || pc.Uninstall? || pc.UninstallProgress?
  }

  /** The sinks are those of the newest job, exactly while its worker means them to be. */
  predicate Sinks(s: State) {
    && s.sink == (if s.workers != [] && HasSink(s.workers[|s.workers| - 1].pc) then Some(|s.workers| - 1) else None)
    && s.progressSink == (if s.workers != [] && HasProgressSink(s.workers[|s.workers| - 1].pc)
                          then Some(|s.workers| - 1) else None)
  }

  /** What the cancel flag means at each point of the newest job. */
  predicate Flag(s: State) {
    && (s.flag.Some? ==> s.workers != [] && s.flag.value == |s.workers| - 1)
    && (s.workers == [] ==> !s.late)
    && (s.lock.Some? && PcOf(s, s.lock.value).Spawning? ==> s.flag.None? && !s.late)
    && (s.workers != [] && !Starting(s) ==>
          var w := s.workers[|s.workers| - 1];
          && (BeforeLook(w.pc) ==> (s.flag.Some? <==> w.asked) && !s.late)
          && (w.pc.ClearFlag? ==> !s.late)
          && (w.pc.Finish? || !BeforeFinish(w.pc) ==> (s.flag.Some? <==> s.late))
          && (w.asked ==> s.fields.cancelling)
          && (!BeforeFinish(w.pc) ==> s.fields.status == w.status))
  }

  /** A worker that has looked at the flag reports its job cancelled exactly if it had been asked to. */
  predicate Verdicts(s: State) {
    forall j | 0 <= j < |s.workers| ::
      s.workers[j].status == Cancelled <==> !BeforeLook(s.workers[j].pc) && s.workers[j].asked
  }

  ghost predicate Inv(s: State) {
    OneJob(s) && LockHeld(s) && Owned(s) && Sinks(s) && Flag(s) && Verdicts(s)
  }

  // ---------------------------------------------------------------- every step keeps it

  /** Only the newest job's worker can do anything but end. */
  lemma OnlyNewestActs(s: State, step: Step)
    requires OneJob(s) && Enabled(s, step) && ByWorker(step)
    ensures step.j < |s.workers|
    ensures step.EndThread? || (step.j == |s.workers| - 1 && BeforeFinish(s.workers[step.j].pc) && !Starting(s))
  {
    hide DoRequest, RequestEnabled;
  }

  lemma WorkerKeepsOneJob(s: State, step: Step)
    requires OneJob(s) && LockHeld(s) && Enabled(s, step) && ByWorker(step)
    ensures OneJob(Do(s, step))
  {
    hide DoWork, WorkerEnabled, DoRequest, RequestEnabled, LockHeld;
    OnlyNewestActs(s, step);
    WorkerFrame(s, step);
    WorkerMoves(s, step);
  }

  /** What a worker's step does to the job: the finish ends it, everything else leaves it as it is. */
  lemma WorkerMoves(s: State, step: Step)
    requires Enabled(s, step) && ByWorker(step)
    ensures step.j < |s.workers|
    ensures var after := Do(s, step);
            && |after.workers| == |s.workers|
            && (forall j | 0 <= j < |s.workers| && j != step.j :: after.workers[j] == s.workers[j])
            && (step.EndThread? ==> !BeforeFinish(s.workers[step.j].pc))
            && (BeforeFinish(after.workers[step.j].pc) <==> !step.FinishJob? && !step.EndThread?)
            && after.fields.id == s.fields.id
            && (after.fields.running <==> s.fields.running && !step.FinishJob?)
  {
    hide DoRequest, RequestEnabled;
  }

  lemma RequestKeepsOneJob(s: State, step: Step)
    requires OneJob(s) && LockHeld(s) && Enabled(s, step) && !ByWorker(step)
    ensures OneJob(Do(s, step))
  {
    hide DoWork, WorkerEnabled;
  }

  lemma WorkerKeepsLockHeld(s: State, step: Step)
    requires OneJob(s) && LockHeld(s) && Enabled(s, step) && ByWorker(step)
    ensures LockHeld(Do(s, step))
  {
    hide DoRequest, RequestEnabled;
  }

  lemma RequestKeepsLockHeld(s: State, step: Step)
    requires OneJob(s) && LockHeld(s) && Enabled(s, step) && !ByWorker(step)
    ensures LockHeld(Do(s, step))
  {
    hide DoWork, WorkerEnabled;
  }

  lemma KeepsLockHeld(s: State, step: Step)
    requires OneJob(s) && LockHeld(s) && Enabled(s, step)
    ensures LockHeld(Do(s, step))
  {
    hide OneJob, LockHeld, Enabled, Do;
    if ByWorker(step) { WorkerKeepsLockHeld(s, step); } else { RequestKeepsLockHeld(s, step); }
  }

  lemma WorkerKeepsSinks(s: State, step: Step)
    requires OneJob(s) && Sinks(s) && Enabled(s, step) && ByWorker(step)
    ensures Sinks(Do(s, step))
  {
    hide DoRequest, RequestEnabled;
    OnlyNewestActs(s, step);
  }

  lemma RequestKeepsSinks(s: State, step: Step)
    requires OneJob(s) && LockHeld(s) && Sinks(s) && Enabled(s, step) && !ByWorker(step)
    ensures Sinks(Do(s, step))
  {
    hide DoWork, WorkerEnabled;
  }

  lemma WorkerKeepsFlag(s: State, step: Step)
    requires OneJob(s) && Flag(s) && Enabled(s, step) && ByWorker(step)
    ensures Flag(Do(s, step))
  {
    hide DoRequest, RequestEnabled;
    OnlyNewestActs(s, step);
  }

  lemma RequestKeepsFlag(s: State, step: Step)
    requires OneJob(s) && LockHeld(s) && Flag(s) && Enabled(s, step) && !ByWorker(step)
    ensures Flag(Do(s, step))
  {
    hide DoWork, WorkerEnabled;
  }

  /** A worker's step leaves alone the mutex, the request threads and who owns which thread. */
  lemma WorkerFrame(s: State, step: Step)
    requires Enabled(s, step) && ByWorker(step)
    ensures var after := Do(s, step);
            && after.lock == s.lock && after.requests == s.requests && after.handle == s.handle
            && |after.workers| == |s.workers|
            && forall j | 0 <= j < |s.workers| && s.workers[j].pc.Ended? :: after.workers[j].pc.Ended?
  {
    hide DoRequest, RequestEnabled;
  }

  lemma WorkerKeepsOwned(s: State, step: Step)
    requires Owned(s) && Enabled(s, step) && ByWorker(step)
    ensures Owned(Do(s, step))
  {
    hide Do, Enabled;
    WorkerFrame(s, step);
  }

  /** A request thread's step leaves the other requests and the workers alone. */
  lemma RequestFrame(s: State, step: Step)
    requires Enabled(s, step) && !ByWorker(step)
    ensures var after := Do(s, step);
            && (forall u | u in s.requests && u != step.t :: u in after.requests && after.requests[u] == s.requests[u])
            && (forall u | u in after.requests && u != step.t :: u in s.requests)
            && (forall j | 0 <= j < |s.workers| :: j < |after.workers| && after.workers[j].pc == s.workers[j].pc)
            && |after.workers| == |s.workers| + (if step.StartSpawn? then 1 else 0)
  {
    hide DoWork, WorkerEnabled;
  }

  /** How it moves the ownership of threads. */
  lemma RequestMoves(s: State, step: Step)
    requires LockHeld(s) && Owned(s) && Enabled(s, step) && !ByWorker(step)
    ensures var after := Do(s, step);
            var was := PcOf(s, step.t);
            var now := PcOf(after, step.t);
            && (Starting(after) ==> after.handle.None?)
            && match step {
                 case StartJoined(_) =>
                   (s.handle.Some? ==> s.workers[s.handle.value].pc.Ended?) && after.handle.None? &&
                   !was.Waiting? && !now.Waiting?
                 case StartSpawn(_) =>
                   s.handle.None? && after.handle == Some(|s.workers|) && !was.Waiting? && !now.Waiting?
                 case JoinTake(_) =>
                   !was.Waiting? && after.handle.None? &&
                   if s.handle.Some? then now == Waiting(s.handle.value) else !now.Waiting?
                 case JoinReturn(_) =>
                   was.Waiting? && s.workers[was.job].pc.Ended? && !now.Waiting? && after.handle == s.handle
                 case _ => after.handle == s.handle && !was.Waiting? && !now.Waiting?
               }
  {
    hide DoWork, WorkerEnabled;
  }

  lemma RequestKeepsOwned(s: State, step: Step)
    requires LockHeld(s) && Owned(s) && Enabled(s, step) && !ByWorker(step)
    ensures Owned(Do(s, step))
  {
    hide Do, Enabled, LockHeld, Starting;
    RequestFrame(s, step);
    RequestMoves(s, step);
    var after := Do(s, step);
    forall j: nat | j < |after.workers| && !after.workers[j].pc.Ended?
      ensures after.handle == Some(j) || exists u :: u in after.requests && after.requests[u] == Waiting(j)
    {
      if j < |s.workers| && s.handle != Some(j) {
        var u :| u in s.requests && s.requests[u] == Waiting(j);
        assert u in after.requests;
      } else if step.JoinTake? && s.handle == Some(j) {
        assert after.requests[step.t] == Waiting(j);
      }
    }
  }

  lemma WorkerKeepsVerdicts(s: State, step: Step)
    requires OneJob(s) && Flag(s) && Verdicts(s) && Enabled(s, step) && ByWorker(step)
    ensures Verdicts(Do(s, step))
  {
    hide DoRequest, RequestEnabled;
    OnlyNewestActs(s, step);
  }

  lemma RequestKeepsVerdicts(s: State, step: Step)
    requires OneJob(s) && Verdicts(s) && Enabled(s, step) && !ByWorker(step)
    ensures Verdicts(Do(s, step))
  {
    hide DoWork, WorkerEnabled;
  }

  lemma StepKeeps(s: State, step: Step)
    requires Inv(s) && Enabled(s, step)
    ensures Inv(Do(s, step))
  {
    hide Do, Enabled, OneJob, LockHeld, Owned, Sinks, Flag, Verdicts;
    KeepsLockHeld(s, step);
    if ByWorker(step) {
      WorkerKeepsOneJob(s, step);
      WorkerKeepsOwned(s, step);
      WorkerKeepsSinks(s, step);
      WorkerKeepsFlag(s, step);
      WorkerKeepsVerdicts(s, step);
    } else {
      RequestKeepsOneJob(s, step);
      RequestKeepsOwned(s, step);
      RequestKeepsSinks(s, step);
      RequestKeepsFlag(s, step);
      RequestKeepsVerdicts(s, step);
    }
  }

  // ---------------------------------------------------------------- runs

  /** Where a run leads, if every step is enabled when it is taken. */
  ghost function Run(s: State, steps: seq<Step>): Option<State> {
    if steps == [] then Some(s)
    else
      var before := Run(s, steps[..|steps| - 1]);
      if before.Some? && Enabled(before.value, steps[|steps| - 1])
      then Some(Do(before.value, steps[|steps| - 1])) else None
  }

  ghost predicate Legal(s: State, steps: seq<Step>) {
    Run(s, steps).Some?
  }

  ghost function After(s: State, steps: seq<Step>): State
    requires Legal(s, steps)
  {
    Run(s, steps).value
  }

  /** The last step of a run is enabled where the steps before it lead. */
  lemma LastStep(s: State, steps: seq<Step>)
    requires Legal(s, steps) && steps != []
    ensures Legal(s, steps[..|steps| - 1]) && Enabled(After(s, steps[..|steps| - 1]), steps[|steps| - 1])
    ensures After(s, steps) == Do(After(s, steps[..|steps| - 1]), steps[|steps| - 1])
  {
  }

  lemma {:induction false} RunKeeps(s: State, steps: seq<Step>)
    requires Inv(s) && Legal(s, steps)
    ensures Inv(After(s, steps))
  {
    hide Inv, Do, Enabled;
    if steps != [] {
      LastStep(s, steps);
      RunKeeps(s, steps[..|steps| - 1]);
      StepKeeps(After(s, steps[..|steps| - 1]), steps[|steps| - 1]);
    }
  }

  lemma Reachable(steps: seq<Step>)
    requires Legal(INITIAL, steps)
    ensures Inv(After(INITIAL, steps))
  {
    RunKeeps(INITIAL, steps);
  }

  // ---------------------------------------------------------------- what holds on every run

  /** At most one worker is before its finish. Whenever nobody is inside `start`, `running_` says exactly
      whether there is one, and the sinks are its own or none. */
  ghost predicate OneWorkerAtMost(s: State) {
    && (forall i, j | 0 <= i < |s.workers| && 0 <= j < |s.workers| && BeforeFinish(s.workers[i].pc) &&
                      BeforeFinish(s.workers[j].pc) :: i == j)
    && (s.lock.None? ==> (s.fields.running <==> exists j :: 0 <= j < |s.workers| && BeforeFinish(s.workers[j].pc)))
    && (forall j | 0 <= j < |s.workers| ::
          && (HasSink(s.workers[j].pc) <==> s.sink == Some(j))
          && (HasProgressSink(s.workers[j].pc) <==> s.progressSink == Some(j)))
  }

  lemma OneWorker(s: State)
    requires OneJob(s) && Sinks(s)
    ensures OneWorkerAtMost(s)
  {
    forall i, j | 0 <= i < |s.workers| && 0 <= j < |s.workers| && BeforeFinish(s.workers[i].pc) &&
                  BeforeFinish(s.workers[j].pc)
      ensures i == j
    {
      assert i == |s.workers| - 1 && j == |s.workers| - 1;
    }
  }

  lemma OneWorkerAlways(steps: seq<Step>)
    requires Legal(INITIAL, steps)
    ensures OneWorkerAtMost(After(INITIAL, steps))
  {
    hide Legal, After, OneWorkerAtMost;
    Reachable(steps);
    OneWorker(After(INITIAL, steps));
  }

  /** When a start creates its worker no cancel is pending, no earlier worker can act any more, no sink is
      installed, and no joinable thread is overwritten. */
  lemma BeginsClean(steps: seq<Step>, t: nat)
    requires Legal(INITIAL, steps) && Enabled(After(INITIAL, steps), StartSpawn(t))
    ensures var s := After(INITIAL, steps);
            && s.flag.None? && s.handle.None? && s.sink.None? && s.progressSink.None? && s.lock == Some(t)
            && s.fields.id == |s.workers| + 1
            && forall j | 0 <= j < |s.workers| :: !BeforeFinish(s.workers[j].pc)
  {
    Reachable(steps);
  }

  /** A cancel that arrives while the worker of job j has not yet looked, or, if `late`, after it has
      cleared the flag and before it finishes. */
  ghost predicate Lands(s: State, step: Step, j: nat, late: bool) {
    && step.CancelJob? && |s.workers| == j + 1
    && if late then s.workers[j].pc.Finish? else BeforeLook(s.workers[j].pc)
  }

  ghost predicate LandsAt(steps: seq<Step>, k: nat, j: nat, late: bool) {
    k < |steps| && Legal(INITIAL, steps[..k]) && Lands(After(INITIAL, steps[..k]), steps[k], j, late)
  }

  ghost predicate Landed(steps: seq<Step>, j: nat, late: bool) {
    exists k :: LandsAt(steps, k, j, late)
  }

  lemma LandedGrows(steps: seq<Step>, j: nat, late: bool)
    requires Legal(INITIAL, steps) && steps != []
    ensures var before := steps[..|steps| - 1];
            Legal(INITIAL, before) &&
            (Landed(steps, j, late) <==>
             Landed(before, j, late) || Lands(After(INITIAL, before), steps[|steps| - 1], j, late))
  {
    hide Enabled, Do, Lands, Run;
    LastStep(INITIAL, steps);
    var last := |steps| - 1;
    forall k: nat | k < last ensures LandsAt(steps, k, j, late) <==> LandsAt(steps[..last], k, j, late) {
      assert steps[..last][..k] == steps[..k];
    }
    assert LandsAt(steps, last, j, late) <==> Lands(After(INITIAL, steps[..last]), steps[last], j, late);
  }

  lemma WorkerAskedStep(s: State, step: Step, j: nat)
    requires OneJob(s) && LockHeld(s) && Enabled(s, step) && ByWorker(step)
    ensures j < |Do(s, step).workers| && Do(s, step).workers[j].asked <==>
            (j < |s.workers| && s.workers[j].asked) || Lands(s, step, j, false)
  {
    hide DoRequest, RequestEnabled;
  }

  lemma RequestAskedStep(s: State, step: Step, j: nat)
    requires OneJob(s) && LockHeld(s) && Enabled(s, step) && !ByWorker(step)
    ensures j < |Do(s, step).workers| && Do(s, step).workers[j].asked <==>
            (j < |s.workers| && s.workers[j].asked) || Lands(s, step, j, false)
  {
    hide DoWork, WorkerEnabled;
  }

  lemma AskedStep(s: State, step: Step, j: nat)
    requires OneJob(s) && LockHeld(s) && Enabled(s, step)
    ensures j < |Do(s, step).workers| && Do(s, step).workers[j].asked <==>
            (j < |s.workers| && s.workers[j].asked) || Lands(s, step, j, false)
  {
    hide OneJob, LockHeld, Enabled, Do, Lands;
    if ByWorker(step) { WorkerAskedStep(s, step, j); } else { RequestAskedStep(s, step, j); }
  }

  /** A worker's `asked` says what it should: a cancel landed while the job had not yet looked. */
  lemma {:induction false} AskedIff(steps: seq<Step>, j: nat)
    requires Legal(INITIAL, steps)
    ensures j < |After(INITIAL, steps).workers| && After(INITIAL, steps).workers[j].asked <==> Landed(steps, j, false)
  {
    hide Enabled, Do, Lands, Landed, OneJob, LockHeld, Owned, Sinks, Flag, Verdicts;
    if steps == [] {
      NothingLanded(j, false);
    } else {
      var before := steps[..|steps| - 1];
      LastStep(INITIAL, steps);
      Reachable(before);
      AskedIff(before, j);
      AskedStep(After(INITIAL, before), steps[|steps| - 1], j);
      LandedGrows(steps, j, false);
    }
  }

  lemma NothingLanded(j: nat, late: bool)
    ensures !Landed([], j, late)
  {
  }

  /** A job is reported cancelled exactly if a cancel landed before its worker looked for one: a cancel that
      comes later, although the request is answered with success, does not change the verdict. */
  lemma CancelledIff(steps: seq<Step>, j: nat)
    requires Legal(INITIAL, steps) && j < |After(INITIAL, steps).workers|
    requires !BeforeLook(After(INITIAL, steps).workers[j].pc)
    ensures After(INITIAL, steps).workers[j].status == Cancelled <==> Landed(steps, j, false)
  {
    hide Enabled, Do, Landed, Run;
    Reachable(steps);
    AskedIff(steps, j);
  }

  // ---------------------------------------------------------------- what a job is reported as

  /** The work of job j comes to its end with this step, by a return or by an exception. */
  predicate EndsWork(step: Step, j: nat) {
    (step.WorkReturns? && step.j == j) || (step.WorkThrows? && step.j == j)
  }

  /** ... and does not succeed. */
  predicate EndsBadly(step: Step, j: nat) {
    || (step.WorkThrows? && step.j == j)
    || (step.WorkReturns? && step.j == j && step.result.Some? && !step.result.value.success)
  }

  /** The step that ended the work of job j, as far as the run has come. */
  ghost function EndOfWork(steps: seq<Step>, j: nat): Option<Step> {
    if steps == [] then None
    else
      var last := |steps| - 1;
      if EndsWork(steps[last], j) then Some(steps[last]) else EndOfWork(steps[..last], j)
  }

  /** What the end of the work has left with the worker of job j. */
  predicate Told(s: State, j: nat, end: Option<Step>) {
    if j >= |s.workers| then end.None?
    else
      var w := s.workers[j];
      match w.pc
      case Install => end.None? && w.result.None?
      case InstallProgress => end.None? && w.result.None?
      case Working => end.None? && w.result.None?
      case Reporting(text) => end == Some(WorkThrows(j, text)) && w.result.None?
      case _ =>
        && end.Some? && EndsWork(end.value, j)
        && w.result == (if end.value.WorkReturns? then end.value.result else None)
        && (w.status == Cancelled || w.status == if EndsBadly(end.value, j) then Failed else Succeeded)
  }

  lemma OwnStepTells(s: State, step: Step, j: nat, end: Option<Step>)
    requires Told(s, j, end) && ByWorker(step) && WorkerEnabled(s, step) && step.j == j
    ensures EndsWork(step, j) ==> end.None?
    ensures Told(DoWork(s, step), j, if EndsWork(step, j) then Some(step) else end)
  {
  }

  lemma WorkerTells(s: State, step: Step, j: nat, end: Option<Step>)
    requires Told(s, j, end) && Enabled(s, step) && ByWorker(step)
    ensures EndsWork(step, j) ==> end.None?
    ensures Told(Do(s, step), j, if EndsWork(step, j) then Some(step) else end)
  {
    hide DoRequest, RequestEnabled, DoWork, WorkerEnabled;
    if step.j == j { OwnStepTells(s, step, j, end); } else { WorkerMoves(s, step); }
  }

  lemma RequestTells(s: State, step: Step, j: nat, end: Option<Step>)
    requires Told(s, j, end) && Enabled(s, step) && !ByWorker(step)
    ensures !EndsWork(step, j) && Told(Do(s, step), j, end)
  {
    hide DoWork, WorkerEnabled;
  }

  lemma {:induction false} RunTells(steps: seq<Step>, j: nat)
    requires Legal(INITIAL, steps)
    ensures Told(After(INITIAL, steps), j, EndOfWork(steps, j))
    ensures forall k | 0 <= k < |steps| && EndsWork(steps[k], j) :: EndOfWork(steps, j) == Some(steps[k])
    ensures EndOfWork(steps, j).Some? ==>
              exists k :: 0 <= k < |steps| && EndsWork(steps[k], j) && EndOfWork(steps, j) == Some(steps[k])
  {
    hide Enabled, Do, Told, EndsWork;
    if steps == [] {
      NothingTold(j);
    } else {
      var last := |steps| - 1;
      var before := steps[..last];
      LastStep(INITIAL, steps);
      RunTells(before, j);
      var s := After(INITIAL, before);
      if ByWorker(steps[last]) {
        WorkerTells(s, steps[last], j, EndOfWork(before, j));
      } else {
        RequestTells(s, steps[last], j, EndOfWork(before, j));
      }
      forall k | 0 <= k < last && EndsWork(steps[k], j) ensures EndOfWork(before, j) == Some(steps[k]) {
        assert before[k] == steps[k];
      }
      if !EndsWork(steps[last], j) && EndOfWork(before, j).Some? {
        var k :| 0 <= k < last && EndsWork(before[k], j) && EndOfWork(before, j) == Some(before[k]);
        assert steps[k] == before[k];
      }
    }
  }

  lemma NothingTold(j: nat)
    ensures Told(INITIAL, j, None) && After(INITIAL, []) == INITIAL
  {
  }

  /** What a job is reported as, on every run: cancelled exactly if a cancel landed before its worker looked for one,
      otherwise failed exactly if its work ended by an exception or with an outcome that is no success, otherwise
      succeeded; and with the outcome its work returned, or none after an exception. */
  lemma VerdictIff(steps: seq<Step>, j: nat)
    requires Legal(INITIAL, steps) && j < |After(INITIAL, steps).workers|
    requires !BeforeLook(After(INITIAL, steps).workers[j].pc)
    ensures var w := After(INITIAL, steps).workers[j];
            && (w.status == Cancelled <==> Landed(steps, j, false))
            && (w.status == Failed <==>
                !Landed(steps, j, false) && exists k :: 0 <= k < |steps| && EndsBadly(steps[k], j))
            && (w.status == Cancelled || w.status == Failed || w.status == Succeeded)
            && (exists k :: 0 <= k < |steps| && EndsWork(steps[k], j))
            && (forall k | 0 <= k < |steps| && steps[k].WorkReturns? && steps[k].j == j :: w.result == steps[k].result)
            && (forall k | 0 <= k < |steps| && steps[k].WorkThrows? && steps[k].j == j :: w.result == None)
  {
    hide Enabled, Do, Landed, Run, Told, EndOfWork;
    CancelledIff(steps, j);
    RunTells(steps, j);
    ToldMeans(After(INITIAL, steps), j, EndOfWork(steps, j));
    var end := EndOfWork(steps, j).value;
    forall k | 0 <= k < |steps| && EndsWork(steps[k], j) ensures steps[k] == end {
    }
  }

  lemma ToldMeans(s: State, j: nat, end: Option<Step>)
    requires Told(s, j, end) && j < |s.workers| && !BeforeLook(s.workers[j].pc)
    ensures end.Some? && EndsWork(end.value, j)
    ensures s.workers[j].result == if end.value.WorkReturns? then end.value.result else None
    ensures s.workers[j].status == Cancelled ||
            s.workers[j].status == if EndsBadly(end.value, j) then Failed else Succeeded
  {
  }

  /** Between a job's finish and the next start the runner publishes what the job's worker came to; dismissing the job
      takes the result away. */
  predicate Published(s: State) {
    s.workers != [] && !Starting(s) && !BeforeFinish(s.workers[|s.workers| - 1].pc) ==>
      var w := s.workers[|s.workers| - 1];
      s.fields.status == w.status && s.fields.result == if s.fields.present then w.result else None
  }

  lemma WorkerPublishes(s: State, step: Step)
    requires OneJob(s) && Shown(s) && Published(s) && Enabled(s, step) && ByWorker(step)
    ensures Published(Do(s, step)) && Shown(Do(s, step))
  {
    hide DoRequest, RequestEnabled;
    OnlyNewestActs(s, step);
  }

  lemma RequestPublishes(s: State, step: Step)
    requires OneJob(s) && LockHeld(s) && Shown(s) && Published(s) && Enabled(s, step) && !ByWorker(step)
    ensures Published(Do(s, step)) && Shown(Do(s, step))
  {
    hide DoWork, WorkerEnabled;
  }

  /** A job that is running is shown. */
  predicate Shown(s: State) {
    s.fields.running ==> s.fields.present && s.fields.status == Running && s.fields.result.None?
  }

  lemma {:induction false} RunPublishes(steps: seq<Step>)
    requires Legal(INITIAL, steps)
    ensures Published(After(INITIAL, steps)) && Shown(After(INITIAL, steps))
  {
    hide Enabled, Do, Published, Shown, OneJob, LockHeld, Owned, Sinks, Flag, Verdicts;
    if steps == [] {
      NothingPublished();
    } else {
      var last := |steps| - 1;
      LastStep(INITIAL, steps);
      Reachable(steps[..last]);
      RunPublishes(steps[..last]);
      var s := After(INITIAL, steps[..last]);
      if ByWorker(steps[last]) { WorkerPublishes(s, steps[last]); } else { RequestPublishes(s, steps[last]); }
    }
  }

  lemma NothingPublished()
    ensures Published(After(INITIAL, [])) && Shown(After(INITIAL, []))
  {
  }

  /** ... which is what the user is told, from the finish of a job to the next start. */
  lemma PublishedIff(steps: seq<Step>)
    requires Legal(INITIAL, steps) && !Active(After(INITIAL, steps)) && !Starting(After(INITIAL, steps))
    requires After(INITIAL, steps).workers != []
    ensures var s := After(INITIAL, steps);
            var j := |s.workers| - 1;
            && !s.fields.running
            && (s.fields.status == Cancelled <==> Landed(steps, j, false))
            && (s.fields.status == Failed <==>
                !Landed(steps, j, false) && exists k :: 0 <= k < |steps| && EndsBadly(steps[k], j))
            && (s.fields.status == Cancelled || s.fields.status == Failed || s.fields.status == Succeeded)
            && (s.fields.present ==>
                  && (forall k | 0 <= k < |steps| && steps[k].WorkReturns? && steps[k].j == j ::
                        s.fields.result == steps[k].result)
                  && (forall k | 0 <= k < |steps| && steps[k].WorkThrows? && steps[k].j == j ::
                        s.fields.result == None))
            && (!s.fields.present ==> s.fields.result == None)
  {
    hide Enabled, Do, Landed, Run, EndsBadly;
    Reachable(steps);
    RunPublishes(steps);
    VerdictIff(steps, |After(INITIAL, steps).workers| - 1);
  }

  // ---------------------------------------------------------------- what the log holds

  /** The line a request thread is about to record: the last one it copied the sink for. */
  ghost function CopiedBy(steps: seq<Step>, t: nat): Line {
    if steps == [] then Line("", "")
    else
      var last := |steps| - 1;
      if steps[last].CopySink? && steps[last].t == t then steps[last].line else CopiedBy(steps[..last], t)
  }

  /** The error a worker reports: that of the exception its work threw. */
  ghost function ThrownIn(steps: seq<Step>, j: nat): string {
    if steps == [] then ""
    else
      var last := |steps| - 1;
      if steps[last].WorkThrows? && steps[last].j == j then steps[last].text else ThrownIn(steps[..last], j)
  }

  /** The lines of a run since the last job began, or was dismissed: those its work logs, the error that ended it, and
      those of request threads that had copied its sink. */
  ghost function Logged(steps: seq<Step>): seq<Line>
    requires Legal(INITIAL, steps)
  {
    if steps == [] then []
    else
      LastStep(INITIAL, steps);
      var before := steps[..|steps| - 1];
      match steps[|steps| - 1]
      case StartJoined(_) => []
      case DismissJob(_) => if After(INITIAL, before).fields.running then Logged(before) else []
      case WorkLogs(_, line) => Logged(before) + [line]
      case ReportError(j) => Logged(before) + [Line("error", ThrownIn(before, j))]
      case CallSink(t) => Logged(before) + [CopiedBy(before, t)]
      case _ => Logged(before)
  }

  predicate Remembers(s: State, t: nat, copied: Line, j: nat, thrown: string) {
    && (PcOf(s, t).Appending? ==> PcOf(s, t).line == copied)
    && (j < |s.workers| && s.workers[j].pc.Reporting? ==> s.workers[j].pc.text == thrown)
  }

  lemma WorkerRemembers(s: State, step: Step, t: nat, copied: Line, j: nat, thrown: string)
    requires Remembers(s, t, copied, j, thrown) && Enabled(s, step) && ByWorker(step)
    ensures Remembers(Do(s, step), t, copied, j, if step.WorkThrows? && step.j == j then step.text else thrown)
  {
    hide DoRequest, RequestEnabled;
  }

  lemma RequestRemembers(s: State, step: Step, t: nat, copied: Line, j: nat, thrown: string)
    requires Remembers(s, t, copied, j, thrown) && Enabled(s, step) && !ByWorker(step)
    ensures Remembers(Do(s, step), t, if step.CopySink? && step.t == t then step.line else copied, j, thrown)
  {
    hide DoWork, WorkerEnabled;
  }

  lemma {:induction false} RunRemembers(steps: seq<Step>, t: nat, j: nat)
    requires Legal(INITIAL, steps)
    ensures Remembers(After(INITIAL, steps), t, CopiedBy(steps, t), j, ThrownIn(steps, j))
  {
    hide Enabled, Do, Remembers;
    if steps == [] {
      NothingRemembered(t, j);
    } else {
      var last := |steps| - 1;
      LastStep(INITIAL, steps);
      RunRemembers(steps[..last], t, j);
      var s := After(INITIAL, steps[..last]);
      var copied, thrown := CopiedBy(steps[..last], t), ThrownIn(steps[..last], j);
      if ByWorker(steps[last]) {
        WorkerRemembers(s, steps[last], t, copied, j, thrown);
      } else {
        RequestRemembers(s, steps[last], t, copied, j, thrown);
      }
    }
  }

  lemma NothingRemembered(t: nat, j: nat)
    ensures Remembers(After(INITIAL, []), t, CopiedBy([], t), j, ThrownIn([], j))
  {
  }

  lemma WorkerLogs(s: State, step: Step)
    requires OneJob(s) && Sinks(s) && Enabled(s, step) && ByWorker(step)
    ensures Do(s, step).fields.log == s.fields.log +
            match step
            case WorkLogs(_, line) => [line]
            case ReportError(j) => [Line("error", s.workers[j].pc.text)]
            case _ => []
  {
    hide DoRequest, RequestEnabled;
    OnlyNewestActs(s, step);
  }

  lemma RequestLogs(s: State, step: Step)
    requires Enabled(s, step) && !ByWorker(step)
    ensures Do(s, step).fields.log ==
            match step
            case StartJoined(_) => []
            case DismissJob(_) => if s.fields.running then s.fields.log else []
            case CallSink(t) => s.fields.log + [PcOf(s, t).line]
            case _ => s.fields.log
  {
    hide DoWork, WorkerEnabled;
  }

  /** Nothing logged for a job is lost, repeated or out of order, and nothing of an earlier job stays. */
  lemma {:induction false} LogIs(steps: seq<Step>)
    requires Legal(INITIAL, steps)
    ensures After(INITIAL, steps).fields.log == Logged(steps)
  {
    hide Enabled, Do, Remembers, OneJob, LockHeld, Owned, Sinks, Flag, Verdicts;
    if steps == [] {
      NothingLogged();
    } else {
      var last := |steps| - 1;
      var step := steps[last];
      LastStep(INITIAL, steps);
      LogIs(steps[..last]);
      Reachable(steps[..last]);
      var s := After(INITIAL, steps[..last]);
      if ByWorker(step) {
        WorkerLogs(s, step);
        if step.ReportError? { AboutToReport(s, steps[..last], step); }
      } else {
        RequestLogs(s, step);
        if step.CallSink? { AboutToCall(s, steps[..last], step); }
      }
    }
  }

  lemma AboutToReport(s: State, before: seq<Step>, step: Step)
    requires Legal(INITIAL, before) && s == After(INITIAL, before) && step.ReportError? && Enabled(s, step)
    ensures step.j < |s.workers| && s.workers[step.j].pc == Reporting(ThrownIn(before, step.j))
  {
    hide Run, Legal, After, Do;
    RunRemembers(before, 0, step.j);
  }

  lemma AboutToCall(s: State, before: seq<Step>, step: Step)
    requires Legal(INITIAL, before) && s == After(INITIAL, before) && step.CallSink? && Enabled(s, step)
    ensures PcOf(s, step.t) == Appending(CopiedBy(before, step.t))
  {
    hide Run, Legal, After, Do;
    RunRemembers(before, step.t, 0);
  }

  lemma NothingLogged()
    ensures After(INITIAL, []).fields.log == [] == Logged([])
  {
  }

  /** The mutex is with a start that has cleared the flag and not yet created its worker. */
  predicate Cleared(s: State) {
    s.lock.Some? && PcOf(s, s.lock.value).Spawning?
  }

  lemma WorkerLateStep(s: State, step: Step, j: nat)
    requires Inv(s) && Enabled(s, step) && ByWorker(step) && |Do(s, step).workers| == j + 1 && !Cleared(Do(s, step))
    ensures Do(s, step).late <==> (|s.workers| == j + 1 && s.late) || Lands(s, step, j, true)
    ensures |s.workers| == j + 1 ==> !Cleared(s)
    ensures |s.workers| != j + 1 ==> |s.workers| == j
  {
    hide DoRequest, RequestEnabled, Owned, Sinks;
  }

  lemma RequestLateStep(s: State, step: Step, j: nat)
    requires Inv(s) && Enabled(s, step) && !ByWorker(step) && |Do(s, step).workers| == j + 1 && !Cleared(Do(s, step))
    ensures Do(s, step).late <==> (|s.workers| == j + 1 && s.late) || Lands(s, step, j, true)
    ensures |s.workers| == j + 1 ==> !Cleared(s)
    ensures |s.workers| != j + 1 ==> |s.workers| == j
  {
    hide DoWork, WorkerEnabled, Owned, Sinks;
  }

  lemma LateStep(s: State, step: Step, j: nat)
    requires Inv(s) && Enabled(s, step) && |Do(s, step).workers| == j + 1 && !Cleared(Do(s, step))
    ensures Do(s, step).late <==> (|s.workers| == j + 1 && s.late) || Lands(s, step, j, true)
    ensures |s.workers| == j + 1 ==> !Cleared(s)
    ensures |s.workers| != j + 1 ==> |s.workers| == j
  {
    hide Inv, Enabled, Do, Lands, Cleared;
    if ByWorker(step) { WorkerLateStep(s, step, j); } else { RequestLateStep(s, step, j); }
  }

  lemma WorkersGrow(s: State, step: Step)
    requires Enabled(s, step)
    ensures |s.workers| <= |Do(s, step).workers|
  {
  }

  /** A cancel can only land on a job that exists. */
  lemma {:induction false} LandedExists(steps: seq<Step>, j: nat, late: bool)
    requires Legal(INITIAL, steps) && Landed(steps, j, late)
    ensures j < |After(INITIAL, steps).workers|
  {
    hide Enabled, Do, Landed;
    if steps == [] {
      NothingLanded(j, late);
    } else {
      var before := steps[..|steps| - 1];
      LastStep(INITIAL, steps);
      LandedGrows(steps, j, late);
      WorkersGrow(After(INITIAL, before), steps[|steps| - 1]);
      if Landed(before, j, late) { LandedExists(before, j, late); }
    }
  }

  lemma {:induction false} LateIff(steps: seq<Step>, j: nat)
    requires Legal(INITIAL, steps) && |After(INITIAL, steps).workers| == j + 1 && !Cleared(After(INITIAL, steps))
    ensures After(INITIAL, steps).late <==> Landed(steps, j, true)
  {
    hide Enabled, Do, Landed, Inv, Lands, Cleared;
    var before := steps[..|steps| - 1];
    LastStep(INITIAL, steps);
    Reachable(before);
    LateStep(After(INITIAL, before), steps[|steps| - 1], j);
    LandedGrows(steps, j, true);
    if |After(INITIAL, before).workers| == j + 1 {
      LateIff(before, j);
    } else if Landed(before, j, true) {
      LandedExists(before, j, true);
    }
  }

  /** With no job before its finish and no start under way, the cancel flag is left set exactly if a cancel
      landed on the last job between the worker's clearing the flag and its finishing. */
  lemma IdleFlagIff(steps: seq<Step>)
    requires Legal(INITIAL, steps) && !Active(After(INITIAL, steps)) && !Starting(After(INITIAL, steps))
    ensures var s := After(INITIAL, steps);
            s.flag.Some? <==> |s.workers| > 0 && Landed(steps, |s.workers| - 1, true)
  {
    hide Enabled, Do, Landed, Run;
    Reachable(steps);
    var s := After(INITIAL, steps);
    if s.workers != [] { LateIff(steps, |s.workers| - 1); }
  }

  lemma EmptyRun(s: State)
    ensures Run(s, []) == Some(s)
  {
  }

  lemma Extend(start: State, steps: seq<Step>, s: State, step: Step) returns (more: seq<Step>)
    requires Run(start, steps) == Some(s) && Enabled(s, step)
    ensures more == steps + [step] && Run(start, more) == Some(Do(s, step))
  {
    more := steps + [step];
    assert more[..|more| - 1] == steps;
  }

  /** The state while job 0, started by thread 0 and alone, has reached `pc`. */
  function FirstJob(pc: WorkerPc, sink: bool, progressSink: bool, flag: bool): State {
    State(Begun(FRESH, "backup", "").(cancelling := flag), None, Some(0), if flag then Some(0) else None,
          if sink then Some(0) else None, if progressSink then Some(0) else None,
          [Worker(pc, Succeeded, None, false)], map[0 := Free], flag)
  }

  lemma OnlyUpdated()
    ensures forall a: Worker, b: Worker :: [a][0 := b] == [b]
  {
    forall a: Worker, b: Worker ensures [a][0 := b] == [b] {
      assert |[a][0 := b]| == 1;
    }
  }

  lemma FirstJobStarts() returns (steps: seq<Step>)
    ensures Run(INITIAL, steps) == Some(FirstJob(Install, false, false, false))
  {
    hide Run;
    EmptyRun(INITIAL);
    var s1 := Do(INITIAL, StartEnter(0, "backup", ""));
    var s2 := Do(s1, StartJoined(0));
    var s3 := Do(s2, StartClear(0));
    assert Do(s3, StartSpawn(0)) == FirstJob(Install, false, false, false);
    steps := Extend(INITIAL, [], INITIAL, StartEnter(0, "backup", ""));
    steps := Extend(INITIAL, steps, s1, StartJoined(0));
    steps := Extend(INITIAL, steps, s2, StartClear(0));
    steps := Extend(INITIAL, steps, s3, StartSpawn(0));
  }

  lemma FirstJobWorks() returns (steps: seq<Step>)
    ensures Run(INITIAL, steps) == Some(FirstJob(Finish, false, false, false))
  {
    hide Run;
    OnlyUpdated();
    steps := FirstJobStarts();
    steps := Extend(INITIAL, steps, FirstJob(Install, false, false, false), SetSink(0));
    steps := Extend(INITIAL, steps, FirstJob(InstallProgress, true, false, false), SetProgressSink(0));
    steps := Extend(INITIAL, steps, FirstJob(Working, true, true, false), WorkReturns(0, None));
    steps := Extend(INITIAL, steps, FirstJob(Uninstall, true, true, false), DropSink(0));
    steps := Extend(INITIAL, steps, FirstJob(UninstallProgress, false, true, false), DropProgressSink(0));
    steps := Extend(INITIAL, steps, FirstJob(ReadFlag, false, false, false), LookAtFlag(0));
    steps := Extend(INITIAL, steps, FirstJob(ClearFlag, false, false, false), DropFlag(0));
  }

  /** ... which does happen: the cancel is accepted, the job ends as a success, and the flag stays. */
  lemma LateCancelHappens() returns (steps: seq<Step>)
    ensures Legal(INITIAL, steps)
    ensures var s := After(INITIAL, steps);
            s.flag.Some? && !s.fields.running && s.lock.None? && s.fields.status == Succeeded && s.fields.cancelling &&
            forall j | 0 <= j < |s.workers| :: s.workers[j].pc.Ended?
  {
    hide Run;
    OnlyUpdated();
    steps := FirstJobWorks();
    steps := Extend(INITIAL, steps, FirstJob(Finish, false, false, false), CancelJob(1));
    assert Run(INITIAL, steps) == Some(FirstJob(Finish, false, false, true));
    steps := Extend(INITIAL, steps, FirstJob(Finish, false, false, true), FinishJob(0));
    var s := Do(FirstJob(Finish, false, false, true), FinishJob(0));
    steps := Extend(INITIAL, steps, s, EndThread(0));
  }

  // ---------------------------------------------------------------- nothing blocks for good

  /** While a start holds the mutex, what happens next: it goes on by itself, or the thread it joins, which
      is past its finish and needs the mutex no more, ends. */
  function Unblock(s: State): Step
    requires s.lock.Some?
  {
    var t := s.lock.value;
    match PcOf(s, t)
    case Clearing => StartClear(t)
    case Spawning => StartSpawn(t)
    case _ =>
      if s.handle.Some? && s.handle.value < |s.workers| && !s.workers[s.handle.value].pc.Ended?
      then EndThread(s.handle.value) else StartJoined(t)
  }

  function Held(s: State): nat {
    if s.lock.None? then 0
    else match PcOf(s, s.lock.value)
      case Spawning => 1
      case Clearing => 2
      case _ => if s.handle.Some? && s.handle.value < |s.workers| && !s.workers[s.handle.value].pc.Ended? then 4 else 3
  }

  /** Joining under the mutex cannot deadlock: in every reachable state where the mutex is held, the step
      that brings its release nearer is enabled. */
  lemma MutexComesFree(s: State)
    requires Inv(s) && s.lock.Some?
    ensures Enabled(s, Unblock(s)) && Held(Do(s, Unblock(s))) < Held(s)
  {
  }

  /** The next step of the newest worker; a worker that could go on logging is taken to return. */
  function GoOn(s: State, j: nat): Step
    requires j < |s.workers|
  {
    match s.workers[j].pc
    case Install => SetSink(j)
    case InstallProgress => SetProgressSink(j)
    case Working => WorkReturns(j, None)
    case Reporting(_) => ReportError(j)
    case Uninstall => DropSink(j)
    case UninstallProgress => DropProgressSink(j)
    case ReadFlag => LookAtFlag(j)
    case ClearFlag => DropFlag(j)
    case Finish => FinishJob(j)
    case Leaving => EndThread(j)
    case Ended => EndThread(j)
  }

  function Left(pc: WorkerPc): nat {
    match pc
    case Install => 10
    case InstallProgress => 9
    case Working => 8
    case Reporting(_) => 7
    case Uninstall => 6
    case UninstallProgress => 5
    case ReadFlag => 4
    case ClearFlag => 3
    case Finish => 2
    case Leaving => 1
    case Ended => 0
  }

  /** A step that brings the end of worker k nearer: the mutex comes free first, if it is held. */
  function Toward(s: State, k: nat): Step
    requires k < |s.workers|
  {
    if s.lock.Some? then Unblock(s) else GoOn(s, k)
  }

  function Distance(s: State, k: nat): nat
    requires k < |s.workers|
  {
    5 * Left(s.workers[k].pc) + Held(s)
  }

  lemma GoOnStep(s: State, k: nat)
    requires Inv(s) && s.lock.None? && k < |s.workers| && !s.workers[k].pc.Ended?
    ensures Enabled(s, GoOn(s, k))
    ensures var after := Do(s, GoOn(s, k));
            after.lock.None? && k < |after.workers| && Left(after.workers[k].pc) < Left(s.workers[k].pc)
    ensures Do(s, GoOn(s, k)).requests == s.requests
  {
    hide Inv, DoRequest, RequestEnabled;
  }

  lemma UnblockStep(s: State, k: nat)
    requires Inv(s) && s.lock.Some? && k < |s.workers|
    ensures Enabled(s, Unblock(s))
    ensures var after := Do(s, Unblock(s));
            Held(after) < Held(s) && k < |after.workers| && Left(after.workers[k].pc) <= Left(s.workers[k].pc)
    ensures forall t | PcOf(s, t).Waiting? :: PcOf(Do(s, Unblock(s)), t) == PcOf(s, t)
  {
    hide OneJob, Owned, Sinks, Flag, Verdicts, LockHeld, Do, Enabled, Unblock, Held;
    MutexComesFree(s);
    UnblockMoves(s, k);
  }

  lemma UnblockMoves(s: State, k: nat)
    requires LockHeld(s) && s.lock.Some? && k < |s.workers| && Enabled(s, Unblock(s))
    ensures var after := Do(s, Unblock(s));
            k < |after.workers| && Left(after.workers[k].pc) <= Left(s.workers[k].pc)
    ensures forall t | PcOf(s, t).Waiting? :: PcOf(Do(s, Unblock(s)), t) == PcOf(s, t)
  {
  }

  lemma {:induction false} Prepend(s: State, step: Step, rest: seq<Step>)
    requires Enabled(s, step) && Legal(Do(s, step), rest)
    ensures Legal(s, [step] + rest) && After(s, [step] + rest) == After(Do(s, step), rest)
  {
    hide Do, Enabled;
    var steps := [step] + rest;
    if rest == [] {
      assert steps == [step] && steps[..0] == [];
      EmptyRun(s);
    } else {
      LastStep(Do(s, step), rest);
      Prepend(s, step, rest[..|rest| - 1]);
      assert steps[..|steps| - 1] == [step] + rest[..|rest| - 1];
    }
  }

  /** From every reachable state the worker a caller of join waits for can come to its end, whatever the
      other threads are doing, and the caller is then free to return. */
  lemma {:induction false} JoinCanReturn(s: State, t: nat) returns (steps: seq<Step>)
    requires Inv(s) && PcOf(s, t).Waiting?
    ensures Legal(s, steps) && Enabled(After(s, steps), JoinReturn(t)) && Inv(After(s, steps))
    decreases Distance(s, PcOf(s, t).job)
  {
    var k := PcOf(s, t).job;
    steps := [];
    EmptyRun(s);
    if !s.workers[k].pc.Ended? {
      hide Inv, Do, Enabled, Run, PcOf;
      var step := Toward(s, k);
      if s.lock.Some? { UnblockStep(s, k); } else { GoOnStep(s, k); }
      StepKeeps(s, step);
      var rest := JoinCanReturn(Do(s, step), t);
      Prepend(s, step, rest);
      steps := [step] + rest;
    }
  }

  // ---------------------------------------------------------------- following the log

  lemma WorkerLogStep(s: State, step: Step)
    requires OneJob(s) && LockHeld(s) && Enabled(s, step) && ByWorker(step)
    ensures var after := Do(s, step);
            s.fields.id <= after.fields.id &&
            (s.fields.id == after.fields.id ==>
               && (after.fields.present ==> s.fields.present)
               && (after.fields.present ==> s.fields.log <= after.fields.log))
  {
    hide DoRequest, RequestEnabled;
  }

  lemma RequestLogStep(s: State, step: Step)
    requires OneJob(s) && LockHeld(s) && Enabled(s, step) && !ByWorker(step)
    ensures var after := Do(s, step);
            s.fields.id <= after.fields.id &&
            (s.fields.id == after.fields.id ==>
               && (after.fields.present ==> s.fields.present)
               && (after.fields.present ==> s.fields.log <= after.fields.log))
  {
    hide DoWork, WorkerEnabled;
  }

  lemma LogStep(s: State, step: Step)
    requires OneJob(s) && LockHeld(s) && Enabled(s, step)
    ensures var after := Do(s, step);
            s.fields.id <= after.fields.id &&
            (s.fields.id == after.fields.id ==>
               && (after.fields.present ==> s.fields.present)
               && (after.fields.present ==> s.fields.log <= after.fields.log))
  {
    hide OneJob, LockHeld, Enabled, Do;
    if ByWorker(step) { WorkerLogStep(s, step); } else { RequestLogStep(s, step); }
  }

  lemma {:induction false} LogGrows(s: State, steps: seq<Step>)
    requires Inv(s) && Legal(s, steps)
    ensures var after := After(s, steps);
            s.fields.id <= after.fields.id &&
            (s.fields.id == after.fields.id && after.fields.present ==>
               s.fields.present && s.fields.log <= after.fields.log)
  {
    hide Do, Enabled, Owned, Sinks, Flag, Verdicts, OneJob, LockHeld;
    if steps != [] {
      var before := steps[..|steps| - 1];
      LastStep(s, steps);
      RunKeeps(s, before);
      LogGrows(s, before);
      LogStep(After(s, before), steps[|steps| - 1]);
    }
  }

  /** A client that has all the lines of a job and asks for those since gets the rest, each once and in
      order, for as long as it is the same job and has not been dismissed. */
  lemma PollsAddUp(s: State, steps: seq<Step>, seen: seq<Line>)
    requires Inv(s) && Legal(s, steps) && seen == s.fields.log
    requires After(s, steps).fields.present && After(s, steps).fields.id == s.fields.id
    ensures seen + LinesSince(After(s, steps).fields, |seen|) == After(s, steps).fields.log
  {
    hide Inv, Run;
    LogGrows(s, steps);
  }
}
