/**
 The controller's threads as a step system: requesters, the reader, the background writer, and external threads
 that take the controller's lock. Each step is one access to shared state, or one section under `m_writer_lock`.
 */
module Protocol {
  import opened Bits
  import opened Common
  import opened Commands

  /** A request; `answer` is what the FPGA will answer to its command, if it returns a result. */
  datatype Req = Req(id: nat, hasRes: bool, answer: u32)

  /** A result, with the request whose command it answers. */
  datatype Result = Result(owner: Req, value: u32)

  datatype Reader =
    | Resting
    | Reading(n: nat, got: seq<Result>)
    | Counted(got: seq<Result>)
    | Popped(reqs: seq<Req>, got: seq<Result>)
    | Setting(reqs: seq<Req>, got: seq<Result>)
    | Dumping(reqs: seq<Req>)

  /** How far `writeRequests` is with the first request of its batch. */
  datatype Stage = Start | Pushed | Sent

  /** What the thread that holds `m_lock` is doing. */
  datatype Task =
    | Nothing
    | Entering
    | Planned(num: nat, notify: bool)
    | Batch(todo: seq<Req>, stage: Stage, uncounted: nat, notify: bool)
    | RunPush(pushed: seq<Req>, toPush: seq<Req>, words: seq<Option<Req>>)
    | RunCheck(words: seq<Option<Req>>)
    | RunParked(words: seq<Option<Req>>)
    | RunWrite(words: seq<Option<Req>>, uncounted: nat, all: seq<Req>)
    | RunAwait(all: seq<Req>)

  datatype Holder = Nobody | Background | External

  /** The background writer while it does not hold the lock. */
  datatype Writer = Checking | Parked | Going

  datatype State = State(
    reqQueue: seq<Req>, resQueue: seq<Req>, notifyQueue: seq<Req>,
    inFlight: seq<Req>, buffer: seq<Result>,
    reader: Reader, holder: Holder, task: Task, writer: Writer,
    notifying: nat,
    numRead: u32, numWritten: u32,
    completed: seq<Result>,
    // History: totals behind the counters, requests issued, requests pushed, queued requests whose words were written.
    read: nat, written: nat, issued: seq<Req>, pushed: seq<Req>, wire: seq<Req>)

  const INITIAL: State :=
    State([], [], [], [], [], Resting, Nobody, Nothing, Checking, 0, 0, 0, [], 0, 0, [], [], [])

  /** The requests of a composite's words that return a result. */
  function RequestsOf(words: seq<Option<Req>>): seq<Req> {
    if words == [] then []
    else (if words[0].Some? then [words[0].value] else []) + RequestsOf(words[1..])
  }

  /** Words for a composite command; the ones that return a result get a fresh request. */
  function MakeWords(kinds: seq<Option<u32>>, nextId: nat): seq<Option<Req>> {
    if kinds == [] then []
    else if kinds[0].Some? then [Some(Req(nextId, true, kinds[0].value))] + MakeWords(kinds[1..], nextId + 1)
    else [None] + MakeWords(kinds[1..], nextId)
  }

  /** `resBuffSpace`. */
  function Space(s: State): int {
    ToInt32((MAX_WRITE - s.numWritten + s.numRead) % WORD)
  }

  /** The wait predicate of the background writer. */
  predicate CanWrite(s: State) {
    Space(s) > 0 && |s.reqQueue| > 0
  }

  /** Requesters, the background writer without the lock, the lock itself, and the FPGA. */
  datatype OuterStep =
    | PushReq(hasRes: bool, answer: u32) | NotifyPush
    | WriterCheck | WriterWake | WriterAcquire | ExternalAcquire | Release
    | Answer

  /** `writeRequests`. */
  datatype BatchStep =
    | ReadSpace(max: nat, notify: bool) | PopBatch | PushResult | WriteWord | CompleteWritten | CountBatch

  /** `run` of a command that returns results. */
  datatype RunStep =
    | RunStart(kinds: seq<Option<u32>>) | RunPushOne | RunPushed | RunTest | RunWake | RunWriteOne | RunCount | RunDone

  datatype ReaderStep =
    | ReaderStart | ReaderRead | ReaderCount | ReaderPop | ReaderNotify | ReaderSet | ReaderRest
    | ReaderDump | ReaderDumpOne

  datatype Step = Outer(outer: OuterStep) | Batching(batch: BatchStep) | Running(run: RunStep) | Read(read: ReaderStep)

  /** Everyone parked on `m_writer_cond` tests again. */
  function WakeAll(s: State): State {
    s.(writer := if s.writer == Parked then Checking else s.writer,
       task := if s.task.RunParked? then RunCheck(s.task.words) else s.task)
  }

  ghost predicate EnabledOuter(s: State, step: OuterStep) {
    match step
    case PushReq(_, _) => true
    case NotifyPush => s.notifying > 0
    case WriterCheck => s.writer == Checking && s.holder != Background
    case WriterWake => s.writer == Parked
    case WriterAcquire => s.writer == Going && s.holder == Nobody && s.task == Nothing
    case ExternalAcquire => s.holder == Nobody
    case Release => s.holder != Nobody && s.task == Nothing
    case Answer => |s.inFlight| > 0
  }

  ghost function DoOuter(s: State, step: OuterStep): State
    requires EnabledOuter(s, step)
  {
    match step
    case PushReq(hasRes, answer) =>
      var r := Req(|s.issued|, hasRes, answer);
      s.(reqQueue := s.reqQueue + [r], issued := s.issued + [r], pushed := s.pushed + [r], notifying := s.notifying + 1)
    case NotifyPush => WakeAll(s.(notifying := s.notifying - 1))
    case WriterCheck => s.(writer := if CanWrite(s) then Going else Parked)
    case WriterWake => s.(writer := Checking)
    case WriterAcquire => s.(holder := Background, task := Entering, writer := Checking)
    case ExternalAcquire => s.(holder := External)
    case Release => s.(holder := Nobody)
    case Answer => s.(inFlight := s.inFlight[1..], buffer := s.buffer + [Result(s.inFlight[0], s.inFlight[0].answer)])
  }

  ghost predicate EnabledBatch(s: State, step: BatchStep) {
    match step
    case ReadSpace(_, _) =>
      (s.holder == Background && s.task == Entering) || (s.holder == External && s.task == Nothing)
    case PopBatch => s.task.Planned?
    case PushResult => s.task.Batch? && |s.task.todo| > 0 && s.task.stage == Start && s.task.todo[0].hasRes
    case WriteWord =>
      s.task.Batch? && |s.task.todo| > 0 && s.task.stage == (if s.task.todo[0].hasRes then Pushed else Start)
    case CompleteWritten => s.task.Batch? && |s.task.todo| > 0 && s.task.stage == Sent
    case CountBatch => s.task.Batch? && s.task.todo == []
  }

  ghost function DoBatch(s: State, step: BatchStep): State
    requires EnabledBatch(s, step)
  {
    match step
    case ReadSpace(max, notify) =>
      var m, n := if s.holder == Background then 32 else max, if s.holder == Background then true else notify;
      s.(task := if Space(s) > 0 && m > 0 then Planned(Min(m, Space(s)), n) else Nothing)
    case PopBatch =>
      var n: nat := Min(s.task.num, |s.reqQueue|);
      s.(reqQueue := s.reqQueue[n..], task := Batch(s.reqQueue[..n], Start, 0, s.task.notify))
    case PushResult => s.(resQueue := s.resQueue + [s.task.todo[0]], task := s.task.(stage := Pushed))
    case WriteWord =>
      var r := s.task.todo[0];
      var s' := s.(wire := s.wire + [r]);
      if r.hasRes
      then s'.(inFlight := s.inFlight + [r],
               task := Batch(s.task.todo[1..], Start, s.task.uncounted + 1, s.task.notify))
      else s'.(task := s.task.(stage := Sent))
    case CompleteWritten =>
      var r := s.task.todo[0];
      var s' := s.(task := Batch(s.task.todo[1..], Start, s.task.uncounted, s.task.notify));
      if s.task.notify then s'.(completed := s.completed + [Result(r, 0)])
      else s'.(notifyQueue := s.notifyQueue + [r])
    case CountBatch =>
      s.(numWritten := (s.numWritten + s.task.uncounted) % WORD, written := s.written + s.task.uncounted,
         task := Nothing)
  }

  ghost predicate EnabledRun(s: State, step: RunStep) {
    match step
    case RunStart(kinds) => s.holder == External && s.task == Nothing
    case RunPushOne => s.task.RunPush? && |s.task.toPush| > 0
    case RunPushed => s.task.RunPush? && s.task.toPush == []
    case RunTest => s.task.RunCheck?
    case RunWake => s.task.RunParked?
    case RunWriteOne => s.task.RunWrite? && |s.task.words| > 0
    case RunCount => s.task.RunWrite? && s.task.words == []
    case RunDone => s.task.RunAwait? && forall r :: r in s.task.all ==> exists v :: v in s.completed && v.owner == r
  }

  ghost function DoRun(s: State, step: RunStep): State
    requires EnabledRun(s, step)
  {
    match step
    case RunStart(kinds) =>
      var words := MakeWords(kinds, |s.issued|);
      s.(issued := s.issued + RequestsOf(words), task := RunPush([], RequestsOf(words), words))
    case RunPushOne =>
      s.(resQueue := s.resQueue + [s.task.toPush[0]],
         task := RunPush(s.task.pushed + [s.task.toPush[0]], s.task.toPush[1..], s.task.words))
    case RunPushed => s.(task := RunCheck(s.task.words))
    case RunTest =>
      var all := RequestsOf(s.task.words);
      s.(task := if Space(s) >= |all| then RunWrite(s.task.words, 0, all) else RunParked(s.task.words))
    case RunWake => s.(task := RunCheck(s.task.words))
    case RunWriteOne =>
      var rest := s.task.words[1..];
      if s.task.words[0].Some?
      then s.(inFlight := s.inFlight + [s.task.words[0].value],
              task := RunWrite(rest, s.task.uncounted + 1, s.task.all))
      else s.(task := RunWrite(rest, s.task.uncounted, s.task.all))
    case RunCount =>
      s.(numWritten := (s.numWritten + s.task.uncounted) % WORD, written := s.written + s.task.uncounted,
         task := RunAwait(s.task.all))
    case RunDone => s.(task := Nothing)
  }

  /** Reading the FPGA's buffer, and requests matched with results, must exist: ReaderNeverStuck shows that they do. */
  ghost predicate EnabledReader(s: State, step: ReaderStep) {
    match step
    case ReaderStart => s.reader == Resting && ToInt32((s.numWritten - s.numRead) % WORD) > 0 && |s.buffer| > 0
    case ReaderRead => s.reader.Reading? && |s.reader.got| < s.reader.n && |s.buffer| > 0
    case ReaderCount => s.reader.Reading? && |s.reader.got| == s.reader.n
    case ReaderPop => s.reader.Counted?
    case ReaderNotify => s.reader.Popped?
    case ReaderSet => s.reader.Setting? && |s.reader.got| > 0 && |s.reader.reqs| > 0
    case ReaderRest => (s.reader.Setting? && s.reader.got == []) || (s.reader.Dumping? && s.reader.reqs == [])
    case ReaderDump => s.reader == Resting && ToInt32((s.numWritten - s.numRead) % WORD) <= 0
    case ReaderDumpOne => s.reader.Dumping? && |s.reader.reqs| > 0
  }

  ghost function DoReader(s: State, step: ReaderStep): State
    requires EnabledReader(s, step)
  {
    match step
    case ReaderStart => s.(reader := Reading(Min(|s.buffer|, BUF_SIZE), []))
    case ReaderRead => s.(buffer := s.buffer[1..], reader := Reading(s.reader.n, s.reader.got + [s.buffer[0]]))
    case ReaderCount =>
      s.(numRead := (s.numRead + s.reader.n) % WORD, read := s.read + s.reader.n, reader := Counted(s.reader.got))
    case ReaderPop =>
      var n: nat := Min(|s.reader.got|, |s.resQueue|);
      s.(resQueue := s.resQueue[n..], reader := Popped(s.resQueue[..n], s.reader.got))
    case ReaderNotify => WakeAll(s.(reader := Setting(s.reader.reqs, s.reader.got)))
    case ReaderSet =>
      s.(completed := s.completed + [Result(s.reader.reqs[0], s.reader.got[0].value)],
         reader := Setting(s.reader.reqs[1..], s.reader.got[1..]))
    case ReaderRest => s.(reader := Resting)
    case ReaderDump =>
      var n: nat := Min(|s.notifyQueue|, BUF_SIZE);
      s.(notifyQueue := s.notifyQueue[n..], reader := Dumping(s.notifyQueue[..n]))
    case ReaderDumpOne =>
      s.(completed := s.completed + [Result(s.reader.reqs[0], 0)], reader := Dumping(s.reader.reqs[1..]))
  }

  ghost predicate Enabled(s: State, step: Step) {
    match step
    case Outer(outer) => EnabledOuter(s, outer)
    case Batching(batch) => EnabledBatch(s, batch)
    case Running(run) => EnabledRun(s, run)
    case Read(read) => EnabledReader(s, read)
  }

  ghost function Do(s: State, step: Step): State
    requires Enabled(s, step)
  {
    match step
    case Outer(outer) => DoOuter(s, outer)
    case Batching(batch) => DoBatch(s, batch)
    case Running(run) => DoRun(s, run)
    case Read(read) => DoReader(s, read)
  }
}
