/** What every reachable state of the controller's threads keeps. */
module ProtocolInvariant {
  import opened Bits
  import opened Common
  import opened Commands
  import opened Protocol

  function Owners(rs: seq<Result>): seq<Req> {
    if rs == [] then [] else Owners(rs[..|rs| - 1]) + [rs[|rs| - 1].owner]
  }

  lemma {:induction false} OwnersOf(rs: seq<Result>)
    ensures |Owners(rs)| == |rs| && forall i :: 0 <= i < |rs| ==> Owners(rs)[i] == rs[i].owner
  {
    if rs == [] {
    } else {
      OwnersOf(rs[..|rs| - 1]);
    }
  }

  lemma OwnersSnoc(rs: seq<Result>, r: Result)
    ensures Owners(rs + [r]) == Owners(rs) + [r.owner]
  {
    assert (rs + [r])[..|rs|] == rs;
  }

  lemma OwnersTail(rs: seq<Result>)
    requires rs != []
    ensures Owners(rs) == [rs[0].owner] + Owners(rs[1..])
  {
    OwnersOf(rs);
    OwnersOf(rs[1..]);
  }

  // The counters

  /** Results the reader has taken from the FPGA and not yet counted. */
  function InHand(r: Reader): nat {
    if r.Reading? then |r.got| else 0
  }

  /** Result-returning commands written and not yet counted. */
  function Uncounted(t: Task): nat {
    match t
    case Batch(_, _, uncounted, _) => uncounted
    case RunWrite(_, uncounted, _) => uncounted
    case _ => 0
  }

  /** How many more result-returning commands the thread with the lock may write before it looks at the space again. */
  function Planning(t: Task): nat {
    match t
    case Planned(num, _) => num
    case Batch(todo, _, _, _) => |todo|
    case RunWrite(words, _, _) => |RequestsOf(words)|
    case _ => 0
  }

  /**
   The totals behind the wrapping counters: the FPGA holds what was written and not read, and with everything
   still planned that is at most 15.
   */
  ghost predicate Counters(s: State) {
    && s.numRead == s.read % WORD && s.numWritten == s.written % WORD
    && |s.inFlight| + |s.buffer| + s.read + InHand(s.reader) == s.written + Uncounted(s.task)
    && s.written + Uncounted(s.task) + Planning(s.task) <= s.read + MAX_WRITE
    && Uncounted(s.task) + Planning(s.task) <= MAX_WRITE
    && (s.reader.Reading? ==> |s.reader.got| <= s.reader.n <= |s.reader.got| + |s.buffer|)
    && (s.holder == Nobody ==> s.task == Nothing)
  }

  lemma WrapAdd(total: nat, n: nat)
    ensures (total % WORD + n) % WORD == (total + n) % WORD
  {
  }

  lemma Remainder(x: int, k: int, d: nat)
    requires x == k * WORD + d && d < WORD
    ensures x % WORD == d
  {
  }

  /** Wrapping a difference of wrapped counters loses nothing while the difference is small. */
  lemma SmallDifference(a: nat, b: nat, offset: nat)
    requires b - MAX_WRITE <= a <= b + MAX_WRITE && offset <= MAX_WRITE
    ensures ToInt32((offset + a % WORD - b % WORD) % WORD) == offset + a - b
  {
    var d, k := offset + a - b, b / WORD - a / WORD;
    assert offset + a % WORD - b % WORD == k * WORD + d;
    if d >= 0 {
      Remainder(offset + a % WORD - b % WORD, k, d);
    } else {
      Remainder(offset + a % WORD - b % WORD, k - 1, d + WORD);
    }
  }

  /** The signed space is exact although the counters wrap and the written one lags. */
  lemma SpaceExact(s: State)
    requires Counters(s)
    ensures s.read - MAX_WRITE <= s.written <= s.read + MAX_WRITE
    ensures Space(s) == MAX_WRITE - (s.written - s.read)
    ensures ToInt32((s.numWritten - s.numRead) % WORD) == s.written - s.read
  {
    SmallDifference(s.written, s.read, 0);
    SmallDifference(s.read, s.written, MAX_WRITE);
    assert MAX_WRITE - s.numWritten + s.numRead == MAX_WRITE + s.numRead - s.numWritten;
  }

  lemma CountersOuter(s: State, step: OuterStep)
    requires Counters(s) && EnabledOuter(s, step)
    ensures Counters(DoOuter(s, step))
  {
  }

  lemma CountersBatch(s: State, step: BatchStep)
    requires Counters(s) && EnabledBatch(s, step)
    ensures Counters(DoBatch(s, step))
  {
    SpaceExact(s);
    hide ToInt32, Space;
    if step.CountBatch? { WrapAdd(s.written, s.task.uncounted); }
  }

  lemma CountersRun(s: State, step: RunStep)
    requires Counters(s) && EnabledRun(s, step)
    ensures Counters(DoRun(s, step))
  {
    SpaceExact(s);
    hide ToInt32, Space, MakeWords;
    if step.RunCount? { WrapAdd(s.written, s.task.uncounted); }
  }

  lemma CountersReader(s: State, step: ReaderStep)
    requires Counters(s) && EnabledReader(s, step)
    ensures Counters(DoReader(s, step))
  {
    hide ToInt32, Space;
    if step.ReaderCount? { WrapAdd(s.read, s.reader.n); }
  }

  // Pairing

  /** Requests whose results the reader holds and whose entries it has not popped. */
  function Owed(r: Reader): seq<Req> {
    match r
    case Reading(_, got) => Owners(got)
    case Counted(got) => Owners(got)
    case _ => []
  }

  /** Requests pushed to the result queue whose words are still to be written. */
  function Unwritten(t: Task): seq<Req> {
    match t
    case Batch(todo, stage, _, _) => if stage == Pushed && |todo| > 0 then [todo[0]] else []
    case RunPush(pushed, _, _) => pushed
    case RunCheck(words) => RequestsOf(words)
    case RunParked(words) => RequestsOf(words)
    case RunWrite(words, _, _) => RequestsOf(words)
    case _ => []
  }

  /** The result queue, in order: results held by the reader, in the FPGA's buffer, to come, and commands to come. */
  ghost predicate Queued(s: State) {
    s.resQueue == Owed(s.reader) + Owners(s.buffer) + s.inFlight + Unwritten(s.task)
  }

  ghost predicate Stages(s: State) {
    && (s.task.Batch? && s.task.stage != Start ==>
          |s.task.todo| > 0 && (s.task.stage == Pushed <==> s.task.todo[0].hasRes))
    && (s.task.RunPush? ==> s.task.pushed + s.task.toPush == RequestsOf(s.task.words))
  }

  /** Requests popped for results are the ones the results answer. */
  ghost predicate Matched(s: State) {
    (s.reader.Popped? || s.reader.Setting?) ==> s.reader.reqs == Owners(s.reader.got)
  }

  // Moving the first entry of one part of the queue to the end of the part before it.

  lemma Regroup<T>(a: seq<T>, b: seq<T>, c: seq<T>, d: seq<T>, x: T)
    ensures (a + [x]) + b + c + d == a + ([x] + b) + c + d
    ensures a + (b + [x]) + c + d == a + b + ([x] + c) + d
    ensures a + b + (c + [x]) + d == a + b + c + ([x] + d)
    ensures (a + b + c + d) + [x] == a + b + c + (d + [x])
  {
  }

  lemma QueuedAnswer(s: State)
    requires Queued(s) && |s.inFlight| > 0
    ensures Queued(DoOuter(s, Answer))
  {
    hide Owed, Unwritten, Owners;
    var x, rest := s.inFlight[0], s.inFlight[1..];
    OwnersSnoc(s.buffer, Result(x, x.answer));
    assert s.inFlight == [x] + rest;
    Regroup(Owed(s.reader), Owners(s.buffer), rest, Unwritten(s.task), x);
  }

  lemma QueuedOuter(s: State, step: OuterStep)
    requires Queued(s) && Stages(s) && EnabledOuter(s, step)
    ensures Queued(DoOuter(s, step)) && Stages(DoOuter(s, step))
  {
    hide Owners, Owed, Space;
    if step.Answer? { QueuedAnswer(s); }
  }

  lemma QueuedBatch(s: State, step: BatchStep)
    requires Queued(s) && Stages(s) && EnabledBatch(s, step)
    ensures Queued(DoBatch(s, step)) && Stages(DoBatch(s, step))
  {
    hide Owners, Owed;
  }

  lemma QueuedRunWriteOne(s: State)
    requires Queued(s) && EnabledRun(s, RunWriteOne)
    ensures Queued(DoRun(s, RunWriteOne))
  {
    var w, rest := s.task.words[0], s.task.words[1..];
    if w.Some? {
      Regroup(Owed(s.reader), Owners(s.buffer), s.inFlight, RequestsOf(rest), w.value);
      assert RequestsOf(s.task.words) == [w.value] + RequestsOf(rest);
    } else {
      assert RequestsOf(s.task.words) == RequestsOf(rest);
    }
    hide Owners, Owed;
  }

  lemma QueuedPushOne(s: State)
    requires Queued(s) && EnabledRun(s, RunPushOne)
    ensures Queued(DoRun(s, RunPushOne))
  {
    hide Owners, Owed;
    Regroup(Owed(s.reader), Owners(s.buffer), s.inFlight, s.task.pushed, s.task.toPush[0]);
  }

  /** What changes none of the parts keeps the order. */
  lemma SameParts(s: State, s': State)
    requires Queued(s) && s'.resQueue == s.resQueue && Unwritten(s'.task) == Unwritten(s.task)
    requires Owed(s'.reader) == Owed(s.reader) && s'.buffer == s.buffer && s'.inFlight == s.inFlight
    ensures Queued(s')
  {
    hide Owners, Owed, Unwritten;
  }

  lemma QueuedRun(s: State, step: RunStep)
    requires Queued(s) && Stages(s) && EnabledRun(s, step)
    ensures Queued(DoRun(s, step)) && Stages(DoRun(s, step))
  {
    hide MakeWords, Queued, Space;
    match step
    case RunPushOne =>
      QueuedPushOne(s);
      hide RequestsOf;
      assert s.task.toPush == [s.task.toPush[0]] + s.task.toPush[1..];
    case RunWriteOne =>
      QueuedRunWriteOne(s);
      hide RequestsOf;
    case RunPushed =>
      assert s.task.pushed + [] == s.task.pushed;
      hide RequestsOf;
      SameParts(s, DoRun(s, step));
    case RunCount =>
      SameParts(s, DoRun(s, step));
    case RunStart(kinds) =>
      assert [] + RequestsOf(MakeWords(kinds, |s.issued|)) == RequestsOf(MakeWords(kinds, |s.issued|));
      hide RequestsOf;
      SameParts(s, DoRun(s, step));
    case _ =>
      hide RequestsOf;
      SameParts(s, DoRun(s, step));
  }

  lemma QueuedReaderRead(s: State)
    requires Queued(s) && EnabledReader(s, ReaderRead)
    ensures Queued(DoReader(s, ReaderRead))
  {
    OwnersSnoc(s.reader.got, s.buffer[0]);
    OwnersTail(s.buffer);
    Regroup(Owners(s.reader.got), Owners(s.buffer[1..]), s.inFlight, Unwritten(s.task), s.buffer[0].owner);
    hide Owners, Unwritten;
  }

  lemma FrontOf<T>(a: seq<T>, rest: seq<T>, n: nat)
    requires n == |a|
    ensures n <= |a + rest| && (a + rest)[..n] == a && (a + rest)[n..] == rest
  {
  }

  lemma Together<T>(a: seq<T>, b: seq<T>, c: seq<T>, d: seq<T>)
    ensures a + b + c + d == a + (b + c + d)
    ensures [] + b + c + d == b + c + d
  {
  }

  /** At the front of the result queue are the requests whose results the reader holds; behind them are the others. */
  lemma FrontIsOwed(s: State)
    requires Queued(s) && s.reader.Counted?
    ensures var n := |s.reader.got|;
            && n <= |s.resQueue| && s.resQueue[..n] == Owners(s.reader.got)
            && s.resQueue[n..] == Owners(s.buffer) + s.inFlight + Unwritten(s.task)
  {
    OwnersOf(s.reader.got);
    hide Owners, Unwritten;
    var a, b, c, d := Owners(s.reader.got), Owners(s.buffer), s.inFlight, Unwritten(s.task);
    Together(a, b, c, d);
    FrontOf(a, b + c + d, |s.reader.got|);
  }

  lemma PoppedStaysQueued(s: State, s': State)
    requires s'.reader.Popped? && s'.resQueue == Owners(s.buffer) + s.inFlight + Unwritten(s.task)
    requires s'.buffer == s.buffer && s'.inFlight == s.inFlight && s'.task == s.task
    ensures Queued(s')
  {
    hide Owners, Unwritten;
    Together([], Owners(s.buffer), s.inFlight, Unwritten(s.task));
  }

  /** The pop of the result queue yields a request for each result, and it is that result's own. */
  lemma QueuedReaderPop(s: State)
    requires Queued(s) && EnabledReader(s, ReaderPop)
    ensures |s.reader.got| <= |s.resQueue|
    ensures Queued(DoReader(s, ReaderPop)) && Matched(DoReader(s, ReaderPop))
  {
    FrontIsOwed(s);
    hide Owners, Unwritten, Queued;
    PoppedStaysQueued(s, DoReader(s, ReaderPop));
  }

  lemma MatchedReader(s: State, step: ReaderStep)
    requires Stages(s) && Matched(s) && EnabledReader(s, step) && step != ReaderPop
    ensures Stages(DoReader(s, step)) && Matched(DoReader(s, step))
  {
    if step.ReaderSet? { OwnersTail(s.reader.got); }
    hide Owners, RequestsOf;
  }

  lemma NothingOwed()
    ensures Owners([]) == []
  {
  }

  lemma StagesOf(s: State, s': State)
    requires Stages(s) && s'.task == s.task
    ensures Stages(s')
  {
  }

  lemma QueuedReader(s: State, step: ReaderStep)
    requires Queued(s) && Stages(s) && Matched(s) && EnabledReader(s, step)
    ensures Queued(DoReader(s, step)) && Stages(DoReader(s, step)) && Matched(DoReader(s, step))
  {
    hide Queued, Owners, Stages, Matched, RequestsOf, Space;
    if step != ReaderPop { MatchedReader(s, step); }
    match step
    case ReaderRead => QueuedReaderRead(s);
    case ReaderPop => QueuedReaderPop(s); StagesOf(s, DoReader(s, step));
    case _ =>
      NothingOwed();
      SameParts(s, DoReader(s, step));
  }
}
