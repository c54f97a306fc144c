/** No deadlock: whatever happened, all that was issued can be completed, unless a command needs too many results. */
module ProtocolProgress {
  import opened Bits
  import opened Commands
  import opened Protocol
  import opened ProtocolInvariant
  import opened ProtocolSafety
  import opened ProtocolRuns

  /** A synchronous command that waits for space asks for no more than there can be. */
  ghost predicate Fits(t: Task) {
    t.RunPush? || t.RunCheck? || t.RunParked? ==> |RequestsOf(t.words)| <= MAX_WRITE
  }

  /** New requests, and what a caller with the lock starts. */
  predicate NewWork(s: State, step: Step) {
    match step
    case Outer(outer) => outer.PushReq? || outer.ExternalAcquire?
    case Batching(batch) => batch.ReadSpace? && s.holder == External
    case Running(run) => run.RunStart?
    case Read(_) => false
  }

  /** Steps that get nowhere: spurious wake-ups, failed tests, and rounds of the reader with nothing to do. */
  predicate Idles(s: State, step: Step) {
    match step
    case Outer(outer) => outer.WriterWake? || (outer.WriterCheck? && !CanWrite(s))
    case Batching(_) => false
    case Running(run) =>
      run.RunWake? || (run.RunTest? && s.task.RunCheck? && Space(s) < |RequestsOf(s.task.words)|)
    case Read(read) => (read.ReaderDump? && s.notifyQueue == []) || (read.ReaderRest? && s.reader.Dumping?)
  }

  // What is left to do: each step costs something, and pays for what it makes others do.

  function TaskCost(t: Task): nat {
    match t
    case Nothing => 0
    case Entering => 3
    case Planned(_, _) => 2
    case Batch(todo, stage, _, _) => 1 + 16 * |todo| - if todo != [] && stage != Start then 1 else 0
    case RunPush(_, toPush, words) => 4 + |toPush| + 15 * |words|
    case RunCheck(words) => 3 + 15 * |words|
    case RunParked(words) => 3 + 15 * |words|
    case RunWrite(words, _, _) => 2 + 15 * |words|
    case RunAwait(_) => 1
  }

  function ReaderCost(r: Reader): nat {
    match r
    case Resting => 10
    case Reading(_, got) => 9 + 12 * |got|
    case Counted(got) => 2 + 12 * |got|
    case Popped(_, got) => 1 + 12 * |got|
    case Setting(_, got) => if got == [] then 11 else 12 * |got|
    case Dumping(reqs) => if reqs == [] then 10 else 11 * |reqs|
  }

  function WriterCost(w: Writer): nat {
    if w == Going then 5 else 0
  }

  /** What a round of the background writer costs, while one is due. */
  function RoundCost(s: State): nat {
    if CanWrite(s) && s.writer != Going && !(s.holder == Background && (s.task.Entering? || s.task.Planned?)) then 6
    else 0
  }

  function Cost(s: State): nat {
    22 * |s.reqQueue| + TaskCost(s.task) + 14 * |s.inFlight| + 13 * |s.buffer| + ReaderCost(s.reader) +
    12 * |s.notifyQueue| + WriterCost(s.writer) + s.notifying + (if s.holder == Nobody then 0 else 1) + RoundCost(s)
  }

  lemma CostOuter(s: State, step: OuterStep)
    requires EnabledOuter(s, step) && !NewWork(s, Outer(step)) && Space(DoOuter(s, step)) <= Space(s)
    ensures Cost(DoOuter(s, step)) <= Cost(s) - if Idles(s, Outer(step)) then 0 else 1
  {
    hide Space, RequestsOf;
  }

  lemma CostPop(s: State)
    requires EnabledBatch(s, PopBatch) && Space(DoBatch(s, PopBatch)) <= Space(s) && s.task.num > 0
    ensures Cost(DoBatch(s, PopBatch)) < Cost(s)
  {
    hide Space, RequestsOf;
  }

  /** While no space and no request is added, a round of the background writer does not become due. */
  lemma RoundStays(s: State, s': State)
    requires Space(s') <= Space(s) && |s'.reqQueue| <= |s.reqQueue| && s'.writer == s.writer && s'.holder == s.holder
    requires s.holder == Background && (s.task.Entering? || s.task.Planned?) ==>
               s'.task.Entering? || s'.task.Planned? || Space(s') <= 0
    ensures RoundCost(s') <= RoundCost(s)
  {
    hide Space;
  }

  lemma CostBatch(s: State, step: BatchStep)
    requires EnabledBatch(s, step) && !NewWork(s, Batching(step)) && Space(DoBatch(s, step)) <= Space(s)
    requires Stages(s) && Separate(s)
    ensures Cost(DoBatch(s, step)) < Cost(s)
  {
    if step.PopBatch? {
      hide Cost;
      CostPop(s);
    } else {
      hide Space, RequestsOf, Separate, RoundCost;
      RoundStays(s, DoBatch(s, step));
    }
  }

  lemma CostRun(s: State, step: RunStep)
    requires EnabledRun(s, step) && !step.RunStart? && Space(DoRun(s, step)) <= Space(s)
    ensures Cost(DoRun(s, step)) <= Cost(s) - if Idles(s, Running(step)) then 0 else 1
  {
    hide Space, RequestsOf;
  }

  lemma CostReader(s: State, step: ReaderStep)
    requires EnabledReader(s, step) && (step != ReaderCount ==> Space(DoReader(s, step)) <= Space(s))
    requires Rounds(s)
    ensures Cost(DoReader(s, step)) <= Cost(s) - if Idles(s, Read(step)) then 0 else 1
  {
    hide Space, RequestsOf;
  }

  lemma BatchesDoNotIdle(s: State, step: BatchStep)
    ensures !Idles(s, Batching(step))
  {
  }

  lemma StartIsNew(s: State, step: RunStep)
    requires !NewWork(s, Running(step))
    ensures !step.RunStart?
  {
  }

  /** Without new work nothing makes the remaining cost grow, and only steps that get nowhere leave it as it is. */
  lemma CostFalls(s: State, step: Step)
    requires Inv(s) && Enabled(s, step) && !NewWork(s, step)
    ensures Cost(Do(s, step)) <= Cost(s) - if Idles(s, step) then 0 else 1
  {
    OnlyReadingMakesRoom(s, step);
    assert Stages(s) && Separate(s) && Rounds(s);
    hide Inv, Cost, Idles, NewWork, Space, Stages, Separate, Rounds;
    match step
    case Outer(outer) => CostOuter(s, outer);
    case Batching(batch) => CostBatch(s, batch); assert !Idles(s, step) by { BatchesDoNotIdle(s, batch); }
    case Running(run) => assert !run.RunStart? by { StartIsNew(s, run); } CostRun(s, run);
    case Read(read) => CostReader(s, read);
  }

  lemma FitsKept(s: State, step: Step)
    requires Fits(s.task) && Enabled(s, step) && !NewWork(s, step)
    ensures Fits(Do(s, step).task) && Do(s, step).issued == s.issued
  {
    hide RequestsOf, Space;
    match step
    case Outer(_) =>
    case Batching(_) =>
    case Running(_) =>
    case Read(_) =>
  }

  // Somebody can always go on

  predicate Idle(s: State) {
    && s.reader == Resting && s.task == Nothing && s.holder == Nobody
    && s.inFlight == [] && s.buffer == [] && s.reqQueue == [] && s.notifyQueue == []
  }

  ghost function ReaderNext(r: Reader): ReaderStep
    requires r != Resting
  {
    match r
    case Reading(n, got) => if |got| == n then ReaderCount else ReaderRead
    case Counted(_) => ReaderPop
    case Popped(_, _) => ReaderNotify
    case Setting(_, got) => if got == [] then ReaderRest else ReaderSet
    case Dumping(reqs) => if reqs == [] then ReaderRest else ReaderDumpOne
  }

  ghost function TaskNext(t: Task): Step
    requires t != Nothing
  {
    match t
    case Entering => Batching(ReadSpace(BUF_SIZE, true))
    case Planned(_, _) => Batching(PopBatch)
    case Batch(todo, stage, _, _) =>
      if todo == [] then Batching(CountBatch)
      else if stage == Sent then Batching(CompleteWritten)
      else if stage == Start && todo[0].hasRes then Batching(PushResult)
      else Batching(WriteWord)
    case RunPush(_, toPush, _) => if toPush == [] then Running(RunPushed) else Running(RunPushOne)
    case RunCheck(_) => Running(RunTest)
    case RunParked(_) => Running(RunTest)
    case RunWrite(words, _, _) => if words == [] then Running(RunCount) else Running(RunWriteOne)
    case RunAwait(_) => Running(RunDone)
  }

  ghost function WriterNext(s: State): Step {
    if s.holder != Nobody then Outer(Release)
    else if s.writer == Parked then Outer(NotifyPush)
    else if s.writer == Checking then Outer(WriterCheck)
    else Outer(WriterAcquire)
  }

  /** First the reader and the FPGA, then the thread with the lock, then whoever is to write next. */
  ghost function Next(s: State): Step {
    if s.reader != Resting then Read(ReaderNext(s.reader))
    else if s.inFlight != [] then Outer(Answer)
    else if s.buffer != [] && Uncounted(s.task) == 0 then Read(ReaderStart)
    else if s.task != Nothing then TaskNext(s.task)
    else if s.notifyQueue != [] then Read(ReaderDump)
    else WriterNext(s)
  }

  /** The reader has nothing in hand. */
  predicate AtRest(r: Reader) { r == Resting || r == Dumping([]) }

  /** The FPGA is empty and the reader at rest. */
  predicate Drained(s: State) {
    AtRest(s.reader) && s.inFlight == [] && s.buffer == []
  }

  lemma ReaderCan(s: State)
    requires Inv(s) && s.reader != Resting
    ensures EnabledReader(s, ReaderNext(s.reader))
    ensures Idles(s, Read(ReaderNext(s.reader))) ==> s.reader.Dumping? && s.reader.reqs == []
  {
    if s.reader.Setting? { OwnersOf(s.reader.got); }
    assert Counters(s) && Matched(s);
    hide Inv, Space, Owners;
  }

  /** While the reader rests with every write counted, the counters tell what is in the FPGA's buffer. */
  lemma RestingCounters(s: State)
    requires Counters(s) && AtRest(s.reader) && s.inFlight == [] && Uncounted(s.task) == 0
    ensures Space(s) == MAX_WRITE - |s.buffer| && ToInt32((s.numWritten - s.numRead) % WORD) == |s.buffer|
  {
    SpaceExact(s);
  }

  /** Nobody is parked for space while there is some and the reader rests. */
  lemma NotParked(s: State)
    requires Inv(s) && Fits(s.task) && Drained(s)
    ensures !s.task.RunParked?
  {
    if s.task.RunParked? { RestingCounters(s); }
  }

  lemma Somewhere(s: State, r: Req)
    requires Inv(s) && r in s.issued
    ensures r in s.reqQueue || r in InTask(s.task) || r in s.resQueue || r in s.notifyQueue || r in InReader(s.reader)
            || r in Owners(s.completed)
  {
    IssuedOnce(s.issued, r);
    assert Times(s.issued, r) == Found(s, r);
  }

  lemma NotQueued(s: State, r: Req)
    requires Inv(s) && r.hasRes && r !in s.pushed
    ensures r !in s.reqQueue && r !in s.notifyQueue
  {
    assert Ordered(s) && AllReturn(s.notifyQueue, false);
    hide Inv;
  }

  /** With the FPGA empty and the reader resting, whoever waits for answers has them all. */
  lemma DoneCan(s: State)
    requires Inv(s) && Drained(s) && s.task.RunAwait?
    ensures EnabledRun(s, RunDone)
  {
    assert s.resQueue == [] by { assert Owners([]) == []; }
    forall r | r in s.task.all ensures exists v :: v in s.completed && v.owner == r {
      assert r in s.issued && r.hasRes && r !in s.pushed;
      Somewhere(s, r);
      NotQueued(s, r);
      OwnersOf(s.completed);
      var k :| 0 <= k < |s.completed| && Owners(s.completed)[k] == r;
      assert s.completed[k] in s.completed && s.completed[k].owner == r;
    }
  }

  lemma BatchCan(s: State)
    requires Stages(s) && Rounds(s) && (s.task.Entering? || s.task.Planned? || s.task.Batch?)
    ensures EnabledBatch(s, TaskNext(s.task).batch)
  {
    hide RequestsOf, Space;
  }

  lemma RunCan(s: State)
    requires s.task.RunPush? || s.task.RunCheck? || s.task.RunWrite?
    ensures EnabledRun(s, TaskNext(s.task).run)
  {
    hide RequestsOf, Space;
  }

  /** No holder of the lock takes a step that gets nowhere while there is space. */
  lemma HolderGetsOn(s: State, step: Step)
    requires Inv(s) && Fits(s.task) && AtRest(s.reader) && s.inFlight == []
    requires s.buffer != [] ==> Uncounted(s.task) > 0
    requires Enabled(s, step) && (step.Batching? || step.Running?)
    ensures !Idles(s, step)
  {
    if s.task.RunParked? { NotParked(s); }
    if s.task.RunCheck? { RestingCounters(s); }
    hide Inv, Space, RequestsOf;
  }

  lemma TaskCan(s: State)
    requires Inv(s) && Fits(s.task) && AtRest(s.reader) && s.inFlight == [] && s.task != Nothing
    requires s.buffer != [] ==> Uncounted(s.task) > 0
    ensures Enabled(s, TaskNext(s.task)) && !Idles(s, TaskNext(s.task)) && !NewWork(s, TaskNext(s.task))
    ensures TaskNext(s.task).Batching? || TaskNext(s.task).Running?
  {
    assert Stages(s) && Rounds(s);
    match s.task {
      case RunParked(_) => NotParked(s);
      case RunAwait(_) => DoneCan(s);
      case Entering => BatchCan(s);
      case Planned(_, _) => BatchCan(s);
      case Batch(_, _, _, _) => BatchCan(s);
      case RunPush(_, _, _) => RunCan(s);
      case RunCheck(_) => RunCan(s);
      case RunWrite(_, _, _) => RunCan(s);
    }
    HolderGetsOn(s, TaskNext(s.task));
    hide Inv, Space, RequestsOf, EnabledRun, EnabledBatch, Idles;
  }

  /** The lock is free or idly held: whoever is next can go on to write the next batch. */
  lemma WriterCan(s: State)
    requires Inv(s) && Drained(s) && s.task == Nothing && (s.reqQueue != [] || s.holder != Nobody)
    ensures Enabled(s, WriterNext(s)) && !Idles(s, WriterNext(s)) && !NewWork(s, WriterNext(s))
  {
    RestingCounters(s);
    assert NoLostWakeUp(s);
    hide Inv, Space;
  }

  /** In every state that is not idle somebody can take a step that gets somewhere, or the reader can go to rest. */
  lemma NextCan(s: State)
    requires Inv(s) && Fits(s.task) && !Idle(s)
    ensures Enabled(s, Next(s)) && !NewWork(s, Next(s))
    ensures Idles(s, Next(s)) ==> s.reader.Dumping? && s.reader.reqs == [] && Next(s) == Read(ReaderRest)
  {
    hide RequestsOf, Owners, ToInt32, Space;
    if s.reader != Resting {
      ReaderCan(s);
      hide Inv;
    } else if s.inFlight != [] {
      hide Inv;
    } else if s.buffer != [] && Uncounted(s.task) == 0 {
      RestingCounters(s);
      hide Inv;
    } else if s.task != Nothing {
      TaskCan(s);
      hide Inv, TaskNext;
    } else if s.notifyQueue != [] {
      RestingCounters(s);
      hide Inv;
    } else {
      WriterCan(s);
      hide Inv, WriterNext;
    }
  }

  ghost predicate AllDone(s: State) {
    forall r :: r in s.issued ==> Result(r, Due(r)) in s.completed
  }

  lemma IdleIsDone(s: State)
    requires Inv(s) && s.inFlight == [] && s.buffer == [] && s.reqQueue == [] && s.notifyQueue == []
    requires s.task == Nothing && AtRest(s.reader)
    ensures AllDone(s)
  {
    assert s.resQueue == [] by { assert Owners([]) == []; }
    forall r | r in s.issued ensures Result(r, Due(r)) in s.completed {
      Somewhere(s, r);
      OwnersOf(s.completed);
      var k :| 0 <= k < |s.completed| && Owners(s.completed)[k] == r;
      assert s.completed[k] == Result(r, Due(r));
    }
  }

  /** Steps that bring no new work and wake nobody without cause. */
  predicate Unforced(s: State, step: Step) {
    !NewWork(s, step) && (!Idles(s, step) || step == Read(ReaderRest))
  }

  /** A way on from s, with no new work and no wake-up without cause, to where everything that was issued is done. */
  ghost predicate Finishes(s: State, states: seq<State>, steps: seq<Step>) {
    && IsPath(states, steps) && states[0] == s
    && (forall i :: 0 <= i < |steps| ==> Unforced(states[i], steps[i]))
    && states[|steps|].issued == s.issued && AllDone(states[|steps|])
  }

  lemma OneMoreStep(s: State, step: Step, later: seq<State>, more: seq<Step>)
    requires Enabled(s, step) && Unforced(s, step) && Do(s, step).issued == s.issued
    requires Finishes(Do(s, step), later, more)
    ensures Finishes(s, [s] + later, [step] + more)
  {
    hide Enabled, Do, Unforced, AllDone;
    var states, steps := [s] + later, [step] + more;
    forall i | 0 <= i < |steps|
      ensures Unforced(states[i], steps[i]) && Enabled(states[i], steps[i])
              && states[i + 1] == Do(states[i], steps[i])
    {
      if i > 0 { assert steps[i] == more[i - 1] && states[i] == later[i - 1] && states[i + 1] == later[i]; }
    }
  }

  lemma NextGetsCloser(s: State)
    requires Inv(s) && Fits(s.task) && !Idle(s)
    ensures Enabled(s, Next(s)) && Unforced(s, Next(s))
    ensures Inv(Do(s, Next(s))) && Fits(Do(s, Next(s)).task) && Do(s, Next(s)).issued == s.issued
    ensures Cost(Do(s, Next(s))) < Cost(s)
            || (Cost(Do(s, Next(s))) == Cost(s) && s.reader == Dumping([]) && Do(s, Next(s)).reader == Resting)
  {
    hide Inv, Fits, Next, Cost, Idles, NewWork;
    NextCan(s);
    InvKept(s, Next(s));
    FitsKept(s, Next(s));
    CostFalls(s, Next(s));
    hide Space, RequestsOf;
  }

  lemma {:induction false} CanFinish(s: State) returns (states: seq<State>, steps: seq<Step>)
    requires Inv(s) && Fits(s.task)
    ensures Finishes(s, states, steps)
    decreases Cost(s), s.reader == Dumping([])
  {
    if Idle(s) {
      IdleIsDone(s);
      return [s], [];
    }
    NextGetsCloser(s);
    hide Inv, Fits, Enabled, Do, Next, Cost, Unforced, Finishes;
    var later, more := CanFinish(Do(s, Next(s)));
    OneMoreStep(s, Next(s), later, more);
    states, steps := [s] + later, [Next(s)] + more;
  }

  // The other direction

  lemma StaysUnfitElsewhere(s: State, step: Step)
    requires !Fits(s.task) && Enabled(s, step) && !step.Running?
    ensures !Fits(Do(s, step).task) && OfRun(Do(s, step).task) == OfRun(s.task)
  {
    hide RequestsOf, Space;
  }

  lemma StaysUnfitRun(s: State, step: RunStep)
    requires Counters(s) && !Fits(s.task) && EnabledRun(s, step)
    ensures !Fits(DoRun(s, step).task) && OfRun(DoRun(s, step).task) == OfRun(s.task)
  {
    SpaceExact(s);
    hide RequestsOf, Space, MakeWords;
  }

  /** A command that needs more results than the FPGA can hold waits for ever. */
  lemma StaysUnfit(s: State, step: Step)
    requires Counters(s) && !Fits(s.task) && Enabled(s, step)
    ensures !Fits(Do(s, step).task) && OfRun(Do(s, step).task) == OfRun(s.task)
  {
    match step
    case Outer(outer) => StaysUnfitElsewhere(s, step);
    case Batching(_) => StaysUnfitElsewhere(s, step);
    case Running(run) => StaysUnfitRun(s, run);
    case Read(_) => StaysUnfitElsewhere(s, step);
  }

  lemma UnfitIsNotDone(s: State, r: Req)
    requires Inv(s) && !Fits(s.task) && r == OfRun(s.task)[0]
    ensures r in s.issued && forall k :: 0 <= k < |s.completed| ==> s.completed[k].owner != r
  {
    assert r in OfRun(s.task);
    IssuedOnce(s.issued, r);
    assert Times(s.issued, r) == Found(s, r);
    assert r in s.resQueue || r in InTask(s.task) by {
      assert Queued(s) && Stages(s);
      hide RequestsOf, Owners, Owed;
    }
    OwnersOf(s.completed);
    hide Inv, RequestsOf;
    forall k | 0 <= k < |s.completed| ensures s.completed[k].owner != r {
      assert Owners(s.completed)[k] == s.completed[k].owner;
    }
  }

  lemma {:induction false} NeverFinishes(states: seq<State>, steps: seq<Step>, i: nat)
    requires IsPath(states, steps) && Inv(states[0]) && !Fits(states[0].task) && i < |states|
    ensures Inv(states[i]) && !Fits(states[i].task) && OfRun(states[i].task) == OfRun(states[0].task)
    ensures !AllDone(states[i])
  {
    if i > 0 {
      NeverFinishes(states, steps, i - 1);
      InvKept(states[i - 1], steps[i - 1]);
      assert Counters(states[i - 1]);
      hide Counters;
      StaysUnfit(states[i - 1], steps[i - 1]);
    }
    hide Inv, Enabled, Do;
    var r := OfRun(states[i].task)[0];
    UnfitIsNotDone(states[i], r);
  }

  function ReadKinds(n: nat): seq<Common.Option<u32>> {
    seq(n, _ => Common.Some(0))
  }

  lemma {:induction false} AllAnswered(n: nat, nextId: nat)
    ensures |RequestsOf(MakeWords(ReadKinds(n), nextId))| == n
  {
    if n > 0 {
      assert ReadKinds(n)[1..] == ReadKinds(n - 1);
      AllAnswered(n - 1, nextId + 1);
      var rest := MakeWords(ReadKinds(n - 1), nextId + 1);
      assert MakeWords(ReadKinds(n), nextId)[1..] == rest;
    } else {
      assert MakeWords(ReadKinds(0), nextId) == [];
    }
  }

  /** Every number of results can be asked for: it takes the lock and one command. */
  lemma CommandOf(n: nat) returns (states: seq<State>, steps: seq<Step>)
    ensures IsRun(states, steps) && |steps| == 2
    ensures |OfRun(states[2].task)| == n && (Fits(states[2].task) <==> n <= 15)
  {
    var s1 := Do(INITIAL, Outer(ExternalAcquire));
    var s2 := Do(s1, Running(RunStart(ReadKinds(n))));
    states, steps := [INITIAL, s1, s2], [Outer(ExternalAcquire), Running(RunStart(ReadKinds(n)))];
    AllAnswered(n, 0);
    hide MakeWords, RequestsOf;
  }

  /**
   There is no deadlock and no lost notification: in every state of every run everything issued can still be
   completed, by steps that nobody takes without cause, if and only if no command waits for more results than the
   FPGA can hold.
   */
  lemma NothingIsStuck(states: seq<State>, steps: seq<Step>, i: nat)
    requires IsRun(states, steps) && i < |states|
    ensures (exists later, more :: Finishes(states[i], later, more)) <==> Fits(states[i].task)
  {
    Always(states, steps, i);
    hide Inv, Fits;
    if Fits(states[i].task) {
      var later, more := CanFinish(states[i]);
    } else {
      forall later, more | IsPath(later, more) && later[0] == states[i] ensures !Finishes(states[i], later, more) {
        NeverFinishes(later, more, |more|);
      }
    }
  }
}
