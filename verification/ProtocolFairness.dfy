/** Endless runs: if every thread goes on when it can, everything that was issued gets completed. */
module ProtocolFairness {
  import opened Bits
  import opened Commands
  import opened Protocol
  import opened ProtocolInvariant
  import opened ProtocolSafety
  import opened ProtocolRuns
  import opened ProtocolProgress

  datatype Thread = ReaderThread | Fpga | LockHolder | WriterThread | Notifier

  predicate IsOf(step: Step, t: Thread) {
    match step
    case Read(_) => t == ReaderThread
    case Batching(_) => t == LockHolder
    case Running(_) => t == LockHolder
    case Outer(outer) =>
      match outer
      case Answer => t == Fpga
      case NotifyPush => t == Notifier
      case Release => t == LockHolder
      case WriterCheck => t == WriterThread
      case WriterWake => t == WriterThread
      case WriterAcquire => t == WriterThread
      case _ => false
  }

  /** Whether a thread has to go on: it has a step that is no new work, and does not sleep. */
  ghost predicate CanMove(s: State, t: Thread) {
    exists step :: IsOf(step, t) && Enabled(s, step) && !NewWork(s, step)
                   && step != Outer(WriterWake) && step != Running(RunWake)
  }

  /** A run without end. */
  ghost predicate Endless(states: nat -> State, steps: nat -> Step) {
    && states(0) == INITIAL
    && forall i: nat :: Enabled(states(i), steps(i)) && states(i + 1) == Do(states(i), steps(i))
  }

  ghost predicate MovesOrCannot(states: nat -> State, steps: nat -> Step, t: Thread, i: nat) {
    exists j: nat :: j >= i && (IsOf(steps(j), t) || !CanMove(states(j), t))
  }

  /** Weak fairness: no thread can move from some point on and never does. */
  ghost predicate Fair(states: nat -> State, steps: nat -> Step) {
    forall t: Thread, i: nat :: MovesOrCannot(states, steps, t, i)
  }

  ghost predicate NoNewWork(states: nat -> State, steps: nat -> Step, n: nat) {
    forall i: nat :: i >= n ==> !NewWork(states(i), steps(i))
  }

  lemma {:induction false} AlwaysEndless(states: nat -> State, steps: nat -> Step, i: nat)
    requires Endless(states, steps)
    ensures Inv(states(i))
  {
    hide Inv, Enabled, Do;
    if i == 0 {
      InvInitial();
    } else {
      AlwaysEndless(states, steps, i - 1);
      InvKept(states(i - 1), steps(i - 1));
    }
  }

  lemma {:induction false} CostNeverGrows(states: nat -> State, steps: nat -> Step, i: nat, j: nat)
    requires Endless(states, steps) && NoNewWork(states, steps, i) && i <= j && Fits(states(i).task)
    ensures Cost(states(j)) <= Cost(states(i))
    ensures Fits(states(j).task) && states(j).issued == states(i).issued
  {
    hide Inv, Enabled, Do, Fits, Cost, NewWork, Idles;
    if j == i {
    } else {
      CostNeverGrows(states, steps, i, j - 1);
      AlwaysEndless(states, steps, j - 1);
      CostFalls(states(j - 1), steps(j - 1));
      FitsKept(states(j - 1), steps(j - 1));
    }
  }

  /** From m on only steps are taken that get nowhere. */
  ghost predicate Settled(states: nat -> State, steps: nat -> Step, m: nat) {
    forall i: nat :: i >= m ==> Idles(states(i), steps(i))
  }

  /** Without new work every run settles. */
  lemma {:induction false} Settles(states: nat -> State, steps: nat -> Step, n: nat) returns (m: nat)
    requires Endless(states, steps) && NoNewWork(states, steps, n) && Fits(states(n).task)
    ensures m >= n && Settled(states, steps, m)
    decreases Cost(states(n))
  {
    if j: nat :| j >= n && !Idles(states(j), steps(j)) {
      AlwaysEndless(states, steps, j);
      CostNeverGrows(states, steps, n, j);
      CostFalls(states(j), steps(j));
      FitsKept(states(j), steps(j));
      hide Inv, Enabled, Do, Fits, Cost, NewWork, Idles;
      m := Settles(states, steps, j + 1);
    } else {
      m := n;
    }
  }

  // What steps that get nowhere leave alone

  function Core(s: State): State {
    s.(reader := if AtRest(s.reader) then Resting else s.reader,
       writer := if s.writer == Parked then Checking else s.writer,
       task := if s.task.RunParked? then RunCheck(s.task.words) else s.task)
  }

  lemma CoreKept(s: State, step: Step)
    requires Enabled(s, step) && Idles(s, step)
    ensures Core(Do(s, step)) == Core(s)
  {
    hide Space, RequestsOf;
    match step
    case Outer(outer) => hide DoBatch, DoRun, DoReader;
    case Batching(batch) => hide DoOuter, DoBatch, DoRun, DoReader;
    case Running(run) => hide DoOuter, DoBatch, DoReader;
    case Read(read) => hide DoOuter, DoBatch, DoRun;
  }

  lemma {:induction false} CoreStays(states: nat -> State, steps: nat -> Step, m: nat, i: nat)
    requires Endless(states, steps) && Settled(states, steps, m) && i >= m
    ensures Core(states(i)) == Core(states(m))
  {
    hide Enabled, Do, Idles, Core;
    if i == m {
    } else {
      CoreStays(states, steps, m, i - 1);
      CoreKept(states(i - 1), steps(i - 1));
    }
  }

  /** A thread that can always move does. */
  lemma Moves(states: nat -> State, steps: nat -> Step, m: nat, t: Thread) returns (j: nat)
    requires Fair(states, steps) && forall i: nat :: i >= m ==> CanMove(states(i), t)
    ensures j >= m && IsOf(steps(j), t)
  {
    hide CanMove, IsOf;
    assert MovesOrCannot(states, steps, t, m);
    j :| j >= m && (IsOf(steps(j), t) || !CanMove(states(j), t));
  }

  lemma MovesBy(s: State, step: Step, t: Thread)
    requires IsOf(step, t) && Enabled(s, step) && !NewWork(s, step)
    requires step != Outer(WriterWake) && step != Running(RunWake)
    ensures CanMove(s, t)
  {
  }

  /** A run that has settled, and what is known of all its states from there on. */
  ghost predicate Quiet(states: nat -> State, steps: nat -> Step, m: nat) {
    && Endless(states, steps) && Fair(states, steps) && Settled(states, steps, m) && NoNewWork(states, steps, m)
    && forall i: nat :: i >= m ==> Inv(states(i)) && Fits(states(i).task) && Core(states(i)) == Core(states(m))
  }

  /** What the states of a quiet run share. */
  predicate Alike(s: State, s': State) {
    && (AtRest(s.reader) <==> AtRest(s'.reader)) && s.inFlight == s'.inFlight && s.buffer == s'.buffer
    && s.reqQueue == s'.reqQueue && s.notifyQueue == s'.notifyQueue && s.notifying == s'.notifying
    && s.holder == s'.holder && (s.task == Nothing <==> s'.task == Nothing) && Uncounted(s.task) == Uncounted(s'.task)
  }

  lemma SameCore(s: State, s': State)
    requires Core(s) == Core(s')
    ensures Alike(s, s')
  {
  }

  lemma Later(states: nat -> State, steps: nat -> Step, m: nat, i: nat)
    requires Quiet(states, steps, m) && i >= m
    ensures Inv(states(i)) && Fits(states(i).task) && Alike(states(m), states(i))
    ensures Enabled(states(i), steps(i)) && Idles(states(i), steps(i)) && !NewWork(states(i), steps(i))
    ensures states(i + 1) == Do(states(i), steps(i))
  {
    hide Inv, Fits, Core, Alike, Enabled, Do, Idles, NewWork;
    SameCore(states(m), states(i));
  }

  /** A thread that can move in every state of a quiet run takes a step there, and the step gets nowhere. */
  lemma MovesQuietly(states: nat -> State, steps: nat -> Step, m: nat, k: nat, t: Thread) returns (j: nat)
    requires Quiet(states, steps, m) && k >= m && forall i: nat :: i >= m ==> CanMove(states(i), t)
    ensures j >= k && IsOf(steps(j), t)
    ensures Inv(states(j)) && Fits(states(j).task) && Alike(states(m), states(j))
    ensures Enabled(states(j), steps(j)) && Idles(states(j), steps(j)) && !NewWork(states(j), steps(j))
  {
    hide Inv, Fits, Core, Alike, Enabled, Do, Idles, NewWork, CanMove, IsOf;
    j := Moves(states, steps, k, t);
    Later(states, steps, m, j);
  }

  // So none of the threads has anything left to do. First the reader that is not at rest.

  lemma ReaderCanMove(s: State)
    requires Inv(s) && !AtRest(s.reader)
    ensures CanMove(s, ReaderThread)
  {
    ReaderCan(s);
    hide Inv;
    MovesBy(s, Read(ReaderNext(s.reader)), ReaderThread);
  }

  lemma ReaderGetsOn(s: State, step: Step)
    requires IsOf(step, ReaderThread) && Enabled(s, step) && !AtRest(s.reader)
    ensures !Idles(s, step)
  {
    hide Space;
  }

  lemma ReaderIsAtRest(states: nat -> State, steps: nat -> Step, m: nat)
    requires Quiet(states, steps, m)
    ensures AtRest(states(m).reader)
  {
    hide Quiet, Inv, Fits, Enabled, Do, Idles, NewWork, CanMove, IsOf;
    if !AtRest(states(m).reader) {
      forall i: nat | i >= m ensures CanMove(states(i), ReaderThread) {
        Later(states, steps, m, i);
        ReaderCanMove(states(i));
      }
      var j := MovesQuietly(states, steps, m, m, ReaderThread);
      ReaderGetsOn(states(j), steps(j));
    }
  }

  // The FPGA

  lemma FpgaCanMove(s: State)
    requires s.inFlight != []
    ensures CanMove(s, Fpga)
  {
    MovesBy(s, Outer(Answer), Fpga);
  }

  lemma FpgaGetsOn(s: State, step: Step)
    requires IsOf(step, Fpga) || IsOf(step, Notifier)
    ensures !Idles(s, step)
  {
  }

  lemma FpgaHasAnswered(states: nat -> State, steps: nat -> Step, m: nat)
    requires Quiet(states, steps, m)
    ensures states(m).inFlight == []
  {
    hide Quiet, Inv, Fits, Enabled, Do, Idles, NewWork, CanMove, IsOf, AtRest;
    if states(m).inFlight != [] {
      forall i: nat | i >= m ensures CanMove(states(i), Fpga) {
        Later(states, steps, m, i);
        FpgaCanMove(states(i));
      }
      var j := MovesQuietly(states, steps, m, m, Fpga);
      FpgaGetsOn(states(j), steps(j));
    }
  }

  // The reader at rest, with results or notifications to take

  /** Something for the reader to take up. */
  predicate ReaderDue(s: State) {
    s.inFlight == [] && Uncounted(s.task) == 0 && AtRest(s.reader) && (s.buffer != [] || s.notifyQueue != [])
  }

  lemma RestCanMove(s: State)
    requires Inv(s) && ReaderDue(s)
    ensures CanMove(s, ReaderThread)
  {
    RestingCounters(s);
    hide Inv, Space;
    var read := if s.reader != Resting then ReaderRest else if s.buffer != [] then ReaderStart else ReaderDump;
    MovesBy(s, Read(read), ReaderThread);
  }

  lemma RestGetsOn(s: State, step: Step)
    requires Inv(s) && ReaderDue(s) && s.reader == Resting && IsOf(step, ReaderThread) && Enabled(s, step)
    ensures !Idles(s, step)
  {
    RestingCounters(s);
    hide Inv, Space;
  }

  /** At rest only a step of the reader changes the reader, and from its empty round it goes to rest. */
  lemma ReaderStays(s: State, step: Step)
    requires Enabled(s, step) && AtRest(s.reader)
    ensures !IsOf(step, ReaderThread) ==> Do(s, step).reader == s.reader
    ensures IsOf(step, ReaderThread) && s.reader != Resting ==> Do(s, step).reader == Resting
  {
    hide Space, RequestsOf, MakeWords;
  }

  lemma {:induction false} StaysResting(states: nat -> State, steps: nat -> Step, m: nat, k: nat, i: nat)
    requires Quiet(states, steps, m) && ReaderDue(states(m)) && m <= k <= i && states(k).reader == Resting
    ensures states(i).reader == Resting && !IsOf(steps(i), ReaderThread)
  {
    hide Quiet, Inv, Fits, Enabled, Do, Idles, NewWork, IsOf;
    if i > k {
      StaysResting(states, steps, m, k, i - 1);
      Later(states, steps, m, i - 1);
      ReaderStays(states(i - 1), steps(i - 1));
    }
    Later(states, steps, m, i);
    if IsOf(steps(i), ReaderThread) { RestGetsOn(states(i), steps(i)); }
  }

  lemma ReaderHasTaken(states: nat -> State, steps: nat -> Step, m: nat)
    requires Quiet(states, steps, m)
    ensures !ReaderDue(states(m))
  {
    hide Quiet, Inv, Fits, Enabled, Do, Idles, NewWork, CanMove, IsOf;
    if ReaderDue(states(m)) {
      forall i: nat | i >= m ensures CanMove(states(i), ReaderThread) {
        Later(states, steps, m, i);
        RestCanMove(states(i));
      }
      var j := MovesQuietly(states, steps, m, m, ReaderThread);
      ReaderStays(states(j), steps(j));
      Later(states, steps, m, j);
      var k := if states(j).reader == Resting then j else j + 1;
      var i := MovesQuietly(states, steps, m, k, ReaderThread);
      StaysResting(states, steps, m, k, i);
    }
  }

  // The thread with the lock

  lemma HolderCanMove(s: State)
    requires Inv(s) && Fits(s.task) && AtRest(s.reader) && s.inFlight == []
    requires s.holder != Nobody && (s.buffer != [] ==> Uncounted(s.task) > 0)
    ensures CanMove(s, LockHolder)
  {
    if s.task == Nothing {
      hide Inv;
      MovesBy(s, Outer(Release), LockHolder);
    } else {
      TaskCan(s);
      hide Inv;
      assert !s.task.RunParked? ==> TaskNext(s.task) != Running(RunWake);
      MovesBy(s, TaskNext(s.task), LockHolder);
    }
  }

  lemma HolderStep(s: State, step: Step)
    requires IsOf(step, LockHolder)
    ensures step.Batching? || step.Running? || step == Outer(Release)
    ensures !Idles(s, Outer(Release))
  {
  }

  lemma LockIsFree(states: nat -> State, steps: nat -> Step, m: nat)
    requires Quiet(states, steps, m) && AtRest(states(m).reader) && states(m).inFlight == []
    requires states(m).buffer != [] ==> Uncounted(states(m).task) > 0
    ensures states(m).holder == Nobody
  {
    hide Quiet, Inv, Fits, Enabled, Do, Idles, NewWork, CanMove, IsOf;
    if states(m).holder != Nobody {
      forall i: nat | i >= m ensures CanMove(states(i), LockHolder) {
        Later(states, steps, m, i);
        HolderCanMove(states(i));
      }
      var j := MovesQuietly(states, steps, m, m, LockHolder);
      HolderStep(states(j), steps(j));
      if steps(j) != Outer(Release) { HolderGetsOn(states(j), steps(j)); }
    }
  }

  // The notifications of pushed requests, and the background writer

  lemma NotifierCanMove(s: State)
    requires s.notifying > 0
    ensures CanMove(s, Notifier)
  {
    MovesBy(s, Outer(NotifyPush), Notifier);
  }

  lemma AllNotified(states: nat -> State, steps: nat -> Step, m: nat)
    requires Quiet(states, steps, m)
    ensures states(m).notifying == 0
  {
    hide Quiet, Inv, Fits, Enabled, Do, Idles, NewWork, CanMove, IsOf, AtRest;
    if states(m).notifying > 0 {
      forall i: nat | i >= m ensures CanMove(states(i), Notifier) {
        Later(states, steps, m, i);
        NotifierCanMove(states(i));
      }
      var j := MovesQuietly(states, steps, m, m, Notifier);
      FpgaGetsOn(states(j), steps(j));
    }
  }

  /** A batch for the background writer, with the lock free. */
  predicate WriterDue(s: State) {
    Drained(s) && s.holder == Nobody && s.notifying == 0 && s.reqQueue != []
  }

  lemma WriterIsAwake(s: State)
    requires Inv(s) && WriterDue(s)
    ensures CanWrite(s) && s.writer != Parked && s.task == Nothing
  {
    assert Counters(s) && NoLostWakeUp(s);
    RestingCounters(s);
    hide Inv, Space;
  }

  lemma WriterCanMove(s: State)
    requires Inv(s) && WriterDue(s)
    ensures CanMove(s, WriterThread)
  {
    WriterIsAwake(s);
    hide Inv, CanWrite;
    MovesBy(s, Outer(if s.writer == Checking then WriterCheck else WriterAcquire), WriterThread);
  }

  lemma WriterGetsOn(s: State, step: Step)
    requires Inv(s) && WriterDue(s) && IsOf(step, WriterThread) && Enabled(s, step)
    ensures !Idles(s, step)
  {
    WriterIsAwake(s);
    hide Inv, CanWrite;
  }

  lemma QueueIsEmpty(states: nat -> State, steps: nat -> Step, m: nat)
    requires Quiet(states, steps, m)
    ensures !WriterDue(states(m))
  {
    hide Quiet, Inv, Fits, Enabled, Do, Idles, NewWork, CanMove, IsOf;
    if WriterDue(states(m)) {
      forall i: nat | i >= m ensures CanMove(states(i), WriterThread) {
        Later(states, steps, m, i);
        WriterCanMove(states(i));
      }
      var j := MovesQuietly(states, steps, m, m, WriterThread);
      WriterGetsOn(states(j), steps(j));
    }
  }

  // Together

  lemma NoTaskWithoutLock(s: State)
    requires Inv(s) && s.holder == Nobody
    ensures s.task == Nothing && Uncounted(s.task) == 0
  {
    assert Counters(s);
    hide Inv;
  }

  lemma QuietIsDone(states: nat -> State, steps: nat -> Step, m: nat)
    requires Quiet(states, steps, m)
    ensures AllDone(states(m))
  {
    ReaderIsAtRest(states, steps, m);
    FpgaHasAnswered(states, steps, m);
    ReaderHasTaken(states, steps, m);
    AllNotified(states, steps, m);
    QueueIsEmpty(states, steps, m);
    Later(states, steps, m, m);
    LockIsFree(states, steps, m);
    NoTaskWithoutLock(states(m));
    hide Quiet, Inv, AllDone;
    IdleIsDone(states(m));
  }

  /**
   In every endless run, if from some point on there is no new work and every thread goes on when it can, then from some
   point on everything that was issued has been completed, each request with its own answer; spurious wake-ups and any
   order of the threads included. The one exception is a command that waits for more results than there can be.
   */
  lemma EverythingCompletes(states: nat -> State, steps: nat -> Step, n: nat) returns (m: nat)
    requires Endless(states, steps) && Fair(states, steps) && NoNewWork(states, steps, n) && Fits(states(n).task)
    ensures m >= n && forall i: nat :: i >= m ==> AllDone(states(i)) && states(i).issued == states(n).issued
  {
    hide Inv, Enabled, Do, Fits, Cost, NewWork, Idles, Core, AllDone, Fair;
    m := Settles(states, steps, n);
    forall i: nat | i >= m ensures AllDone(states(i)) && states(i).issued == states(n).issued {
      CostNeverGrows(states, steps, n, i);
      forall k: nat | k >= i ensures Inv(states(k)) && Fits(states(k).task) && Core(states(k)) == Core(states(i)) {
        AlwaysEndless(states, steps, k);
        CostNeverGrows(states, steps, n, k);
        CoreStays(states, steps, m, i);
        CoreStays(states, steps, m, k);
      }
      QuietIsDone(states, steps, i);
    }
  }

  lemma CountersOf(s: State)
    requires Inv(s)
    ensures Counters(s)
  {
  }

  lemma {:induction false} StaysUnfitForEver(states: nat -> State, steps: nat -> Step, n: nat, i: nat)
    requires Endless(states, steps) && !Fits(states(n).task) && i >= n
    ensures !Fits(states(i).task)
  {
    hide Inv, Enabled, Do, Fits;
    if i == n {
    } else {
      StaysUnfitForEver(states, steps, n, i - 1);
      AlwaysEndless(states, steps, i - 1);
      assert Counters(states(i - 1)) by { CountersOf(states(i - 1)); }
      hide Counters;
      StaysUnfit(states(i - 1), steps(i - 1));
    }
  }

  /** So a fair run without new work completes everything if and only if no command waits for too many results. */
  lemma CompletesExactly(states: nat -> State, steps: nat -> Step, n: nat)
    requires Endless(states, steps) && Fair(states, steps) && NoNewWork(states, steps, n)
    ensures (exists m: nat :: m >= n && AllDone(states(m))) <==> Fits(states(n).task)
  {
    hide Inv, Enabled, Do, Fits, AllDone, Fair, NewWork;
    if Fits(states(n).task) {
      var m := EverythingCompletes(states, steps, n);
      assert AllDone(states(m));
    } else {
      forall m: nat | m >= n ensures !AllDone(states(m)) {
        StaysUnfitForEver(states, steps, n, m);
        AlwaysEndless(states, steps, m);
        NeverFinishes([states(m)], [], 0);
      }
    }
  }
}
