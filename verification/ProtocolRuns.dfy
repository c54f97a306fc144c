/** Wake-ups, and what holds in every state of every run of the controller's threads. */
module ProtocolRuns {
  import opened Bits
  import opened Commands
  import opened Protocol
  import opened ProtocolInvariant
  import opened ProtocolSafety

  /** The reader has counted results and not yet notified. */
  predicate AboutToNotify(r: Reader) {
    r.Counted? || r.Popped?
  }

  /** Whoever is parked on `m_writer_cond` although its predicate holds is about to be notified. */
  ghost predicate NoLostWakeUp(s: State) {
    && (s.writer == Parked && CanWrite(s) ==> s.notifying > 0 || AboutToNotify(s.reader))
    && (s.task.RunParked? && Space(s) >= |RequestsOf(s.task.words)| ==> AboutToNotify(s.reader))
  }

  lemma OnlyReadingCountsDown(s: State, step: Step)
    requires Enabled(s, step)
    ensures Do(s, step).written >= s.written
    ensures step != Read(ReaderCount) ==> Do(s, step).read == s.read
  {
    hide Space, MakeWords, RequestsOf;
    match step
    case Outer(_) =>
    case Batching(_) =>
    case Running(_) =>
    case Read(_) =>
  }

  lemma CountersKept(s: State, step: Step)
    requires Counters(s) && Enabled(s, step)
    ensures Counters(Do(s, step))
  {
    hide Counters;
    match step
    case Outer(outer) => CountersOuter(s, outer);
    case Batching(batch) => CountersBatch(s, batch);
    case Running(run) => CountersRun(s, run);
    case Read(read) => CountersReader(s, read);
  }

  /** Space grows only when the reader counts. */
  lemma OnlyReadingMakesRoom(s: State, step: Step)
    requires Counters(s) && Enabled(s, step)
    ensures step != Read(ReaderCount) ==> Space(Do(s, step)) <= Space(s)
  {
    hide Space, Do;
    CountersKept(s, step);
    OnlyReadingCountsDown(s, step);
    SpaceExact(s);
    SpaceExact(Do(s, step));
  }

  /** The request queue grows only when a request is pushed. */
  lemma OnlyPushingQueues(s: State, step: Step)
    requires Enabled(s, step)
    ensures !(step.Outer? && step.outer.PushReq?) ==> |Do(s, step).reqQueue| <= |s.reqQueue|
  {
    hide Space, MakeWords, RequestsOf;
    match step
    case Outer(_) =>
    case Batching(_) =>
    case Running(_) =>
    case Read(_) =>
  }

  /** So the background writer's predicate becomes true only by a push or by the reader's count. */
  lemma WhatLetsTheWriterGo(s: State, step: Step)
    requires Counters(s) && Enabled(s, step)
    requires !CanWrite(s) && CanWrite(Do(s, step))
    ensures step == Read(ReaderCount) || (step.Outer? && step.outer.PushReq?)
  {
    hide Space, Do;
    OnlyReadingMakesRoom(s, step);
    OnlyPushingQueues(s, step);
  }

  lemma WakeUpsOuter(s: State, step: OuterStep)
    requires NoLostWakeUp(s) && EnabledOuter(s, step)
    ensures NoLostWakeUp(DoOuter(s, step))
  {
    hide RequestsOf;
  }

  lemma WakeUpsBatch(s: State, step: BatchStep)
    requires NoLostWakeUp(s) && EnabledBatch(s, step)
    requires Space(DoBatch(s, step)) <= Space(s)
    ensures NoLostWakeUp(DoBatch(s, step))
  {
    hide RequestsOf, Space;
  }

  lemma SpaceOfTask(s: State, s': State)
    requires s.numRead == s'.numRead && s.numWritten == s'.numWritten
    ensures Space(s) == Space(s')
  {
  }

  lemma WakeUpsRun(s: State, step: RunStep)
    requires NoLostWakeUp(s) && EnabledRun(s, step)
    requires Space(DoRun(s, step)) <= Space(s)
    ensures NoLostWakeUp(DoRun(s, step))
  {
    hide RequestsOf, MakeWords, Space;
    if step.RunTest? { SpaceOfTask(s, DoRun(s, step)); }
  }

  lemma WakeUpsReader(s: State, step: ReaderStep)
    requires NoLostWakeUp(s) && EnabledReader(s, step)
    ensures NoLostWakeUp(DoReader(s, step))
  {
    hide RequestsOf;
  }

  lemma WakeUpsKept(s: State, step: Step)
    requires Counters(s) && NoLostWakeUp(s) && Enabled(s, step)
    ensures NoLostWakeUp(Do(s, step))
  {
    OnlyReadingMakesRoom(s, step);
    hide Counters, MakeWords, RequestsOf;
    match step
    case Outer(outer) => WakeUpsOuter(s, outer);
    case Batching(batch) => WakeUpsBatch(s, batch);
    case Running(run) => WakeUpsRun(s, run);
    case Read(read) => WakeUpsReader(s, read);
  }

  ghost predicate Inv(s: State) {
    && Counters(s) && Queued(s) && Stages(s) && Matched(s)
    && Answered(s) && Ordered(s) && Conserved(s) && Numbered(s) && Separate(s) && Rounds(s)
    && NoLostWakeUp(s)
  }

  lemma InvInitial()
    ensures Inv(INITIAL)
  {
    forall r ensures Times(INITIAL.issued, r) == Found(INITIAL, r) {
    }
  }

  lemma MatchedElsewhere(s: State, step: Step)
    requires Matched(s) && Enabled(s, step) && !step.Read?
    ensures Matched(Do(s, step))
  {
    hide Owners, MakeWords, RequestsOf;
    match step
    case Outer(_) =>
    case Batching(_) =>
    case Running(_) =>
  }

  lemma InvKept(s: State, step: Step)
    requires Inv(s) && Enabled(s, step)
    ensures Inv(Do(s, step))
  {
    CountersKept(s, step);
    NumberedKept(s, step);
    SeparateKept(s, step);
    RoundsKept(s, step);
    ConservedKept(s, step);
    hide Counters, Queued, Stages, Matched, Answered, Ordered, Conserved, Numbered, Separate,
         Rounds, NoLostWakeUp;
    match step {
      case Outer(outer) =>
        QueuedOuter(s, outer);
        MatchedElsewhere(s, step);
        AnsweredOuter(s, outer);
        OrderedOuter(s, outer);
      case Batching(batch) =>
        QueuedBatch(s, batch);
        MatchedElsewhere(s, step);
        AnsweredBatch(s, batch);
        OrderedBatch(s, batch);
      case Running(run) =>
        QueuedRun(s, run);
        MatchedElsewhere(s, step);
        AnsweredRun(s, run);
        OrderedRun(s, run);
      case Read(read) =>
        QueuedReader(s, read);
        AnsweredReader(s, read);
        OrderedReader(s, read);
    }
    WakeUpsKept(s, step);
  }

  ghost predicate IsPath(states: seq<State>, steps: seq<Step>) {
    && |states| == |steps| + 1
    && forall i :: 0 <= i < |steps| ==> Enabled(states[i], steps[i]) && states[i + 1] == Do(states[i], steps[i])
  }

  ghost predicate IsRun(states: seq<State>, steps: seq<Step>) {
    IsPath(states, steps) && states[0] == INITIAL
  }

  lemma {:induction false} Always(states: seq<State>, steps: seq<Step>, i: nat)
    requires IsRun(states, steps) && i < |states|
    ensures Inv(states[i])
  {
    hide Inv;
    if i == 0 {
      InvInitial();
    } else {
      Always(states, steps, i - 1);
      InvKept(states[i - 1], steps[i - 1]);
    }
  }

  /** Whoever is answered is answered with the FPGA's answer to its own command. */
  lemma AnswersAreOwn(states: seq<State>, steps: seq<Step>, i: nat, k: nat)
    requires IsRun(states, steps) && i < |states| && k < |states[i].completed|
    ensures states[i].completed[k].value == Due(states[i].completed[k].owner)
  {
    Always(states, steps, i);
  }

  /** The reader's pop always finds exactly the requests of the results it holds. */
  lemma PopIsExact(states: seq<State>, steps: seq<Step>, i: nat)
    requires IsRun(states, steps) && i < |states| && states[i].reader.Counted?
    ensures var got := states[i].reader.got; |got| <= |states[i].resQueue| && states[i].resQueue[..|got|] == Owners(got)
  {
    Always(states, steps, i);
    QueuedReaderPop(states[i]);
  }

  /** The FPGA never holds more than 15 results or commands that return one; the signed space is exact. */
  lemma NeverOverfull(states: seq<State>, steps: seq<Step>, i: nat)
    requires IsRun(states, steps) && i < |states|
    ensures var s := states[i];
            && |s.inFlight| + |s.buffer| + InHand(s.reader) <= 15
            && -15 <= ToInt32((s.numWritten - s.numRead) % WORD) <= 15
            && Space(s) == 15 - ToInt32((s.numWritten - s.numRead) % WORD)
            && (Uncounted(s.task) == 0 ==>
                  Space(s) == 15 - (|s.inFlight| + |s.buffer| + InHand(s.reader)))
            && (s.task.Batch? ==> |s.task.todo| <= 15)
  {
    Always(states, steps, i);
    SpaceExact(states[i]);
  }

  /** Each request issued is in exactly one place; in particular it is completed at most once. */
  lemma ExactlyOnce(states: seq<State>, steps: seq<Step>, i: nat, r: Req)
    requires IsRun(states, steps) && i < |states|
    ensures Found(states[i], r) == if r in states[i].issued then 1 else 0
  {
    Always(states, steps, i);
    IssuedOnce(states[i].issued, r);
    hide Found, Times;
    assert Times(states[i].issued, r) == Found(states[i], r);
  }

  /** When nothing is queued or under way, every request issued has been completed. */
  lemma QuietMeansDone(states: seq<State>, steps: seq<Step>, i: nat, r: Req)
    requires IsRun(states, steps) && i < |states| && r in states[i].issued
    requires var s := states[i];
             s.reqQueue == s.resQueue == s.notifyQueue == [] && InTask(s.task) == [] && InReader(s.reader) == []
    ensures exists k :: 0 <= k < |states[i].completed| && states[i].completed[k] == Result(r, Due(r))
  {
    var s := states[i];
    ExactlyOnce(states, steps, i, r);
    Always(states, steps, i);
    assert r in Owners(s.completed);
    OwnersOf(s.completed);
    var k :| 0 <= k < |s.completed| && Owners(s.completed)[k] == r;
    assert s.completed[k].owner == r;
  }

  /** Queued requests reach the FPGA in the order they were pushed, whoever writes them. */
  lemma WrittenInOrder(states: seq<State>, steps: seq<Step>, i: nat)
    requires IsRun(states, steps) && i < |states|
    ensures states[i].wire <= states[i].pushed
  {
    Always(states, steps, i);
  }

  /** Nobody sleeps on a true predicate unless a notification is due. */
  lemma NobodyIsForgotten(states: seq<State>, steps: seq<Step>, i: nat)
    requires IsRun(states, steps) && i < |states|
    ensures NoLostWakeUp(states[i])
  {
    Always(states, steps, i);
  }

  /**
   The reader can always go on: it never reads an empty buffer, never lacks a request for a result, and while it
   rests with every write counted, a result in the buffer makes it start.
   */
  lemma ReaderNeverStuck(states: seq<State>, steps: seq<Step>, i: nat)
    requires IsRun(states, steps) && i < |states|
    ensures var s := states[i];
            && (s.reader.Reading? ==> EnabledReader(s, ReaderRead) || EnabledReader(s, ReaderCount))
            && (s.reader.Setting? ==> EnabledReader(s, ReaderSet) || EnabledReader(s, ReaderRest))
            && (s.reader == Resting && |s.buffer| > 0 && Uncounted(s.task) == 0 ==> EnabledReader(s, ReaderStart))
  {
    var s := states[i];
    Always(states, steps, i);
    SpaceExact(s);
    if s.reader.Setting? { OwnersOf(s.reader.got); }
  }

  /** A round of the reader takes all results there are: never more than the 32 it has room for. */
  lemma RoundTakesAll(s: State)
    requires Inv(s) && EnabledReader(s, ReaderStart)
    ensures DoReader(s, ReaderStart).reader == Reading(|s.buffer|, []) && |s.buffer| <= 32
  {
    assert Counters(s);
    hide Inv;
  }

  /** Notifications left to the reader are taken in order, up to 32 at a time. */
  lemma DumpTakesMost(s: State)
    requires EnabledReader(s, ReaderDump)
    ensures var s' := DoReader(s, ReaderDump);
            && s'.reader.Dumping? && s'.reader.reqs + s'.notifyQueue == s.notifyQueue
            && (|s'.reader.reqs| == 32 || (|s'.reader.reqs| < 32 && s'.notifyQueue == []))
  {
  }

  lemma SpaceOfBatch(s: State)
    requires Inv(s) && s.holder == Background && s.task == Entering
    ensures Space(s) <= 15
  {
    SpaceExact(s);
    assert Counters(s);
  }

  /** The background writer takes as many requests as there is room for results, and notifies at once. */
  lemma BackgroundTakesAll(s: State, step: BatchStep)
    requires Inv(s) && s.holder == Background && step.ReadSpace? && EnabledBatch(s, step) && Space(s) > 0
    ensures var planned := DoBatch(s, step); var s' := DoBatch(planned, PopBatch);
            && EnabledBatch(planned, PopBatch) && s'.task.Batch? && s'.task.notify
            && s.reqQueue == s'.task.todo + s'.reqQueue && (|s'.task.todo| == Space(s) || s'.reqQueue == [])
  {
    SpaceOfBatch(s);
    hide Inv, Space;
  }

  /** A request without a result is completed at once by a writer that notifies, and else left to the reader. */
  lemma WrittenWithoutResult(s: State)
    requires EnabledBatch(s, CompleteWritten)
    ensures var s', r := DoBatch(s, CompleteWritten), s.task.todo[0];
            if s.task.notify then s'.completed == s.completed + [Result(r, 0)] && s'.notifyQueue == s.notifyQueue
            else s'.completed == s.completed && s'.notifyQueue == s.notifyQueue + [r]
  {
  }
}
