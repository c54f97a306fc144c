/** Answers, order and conservation: what every step of the controller's threads keeps. */
module ProtocolSafety {
  import opened Bits
  import opened Common
  import opened Commands
  import opened Protocol
  import opened ProtocolInvariant

  // Answers

  ghost predicate Truthful(rs: seq<Result>) {
    forall i :: 0 <= i < |rs| ==> rs[i].value == rs[i].owner.answer
  }

  ghost predicate AllReturn(rs: seq<Req>, hasRes: bool) {
    forall i :: 0 <= i < |rs| ==> rs[i].hasRes == hasRes
  }

  function Got(r: Reader): seq<Result> {
    match r
    case Reading(_, got) => got
    case Counted(got) => got
    case Popped(_, got) => got
    case Setting(_, got) => got
    case _ => []
  }

  /** What a requester is given: the FPGA's answer to its command, or 0 if the command has no result. */
  function Due(r: Req): u32 {
    if r.hasRes then r.answer else 0
  }

  ghost predicate Answered(s: State) {
    && Truthful(s.buffer) && Truthful(Got(s.reader))
    && AllReturn(s.resQueue, true) && AllReturn(s.notifyQueue, false)
    && (s.reader.Popped? || s.reader.Setting? ==> AllReturn(s.reader.reqs, true))
    && (s.reader.Dumping? ==> AllReturn(s.reader.reqs, false))
    && (s.task.RunPush? ==> AllReturn(s.task.toPush, true))
    && (forall i :: 0 <= i < |s.completed| ==> s.completed[i].value == Due(s.completed[i].owner))
  }

  lemma {:induction false} MakeWordsRequests(kinds: seq<Option<u32>>, nextId: nat)
    ensures AllReturn(RequestsOf(MakeWords(kinds, nextId)), true)
    ensures forall i :: 0 <= i < |RequestsOf(MakeWords(kinds, nextId))| ==>
              RequestsOf(MakeWords(kinds, nextId))[i].id == nextId + i
  {
    if kinds == [] {
    } else {
      var rest := if kinds[0].Some? then MakeWords(kinds[1..], nextId + 1) else MakeWords(kinds[1..], nextId);
      MakeWordsRequests(kinds[1..], if kinds[0].Some? then nextId + 1 else nextId);
      assert MakeWords(kinds, nextId)[1..] == rest;
    }
  }

  lemma AnsweredOuter(s: State, step: OuterStep)
    requires Answered(s) && EnabledOuter(s, step)
    ensures Answered(DoOuter(s, step))
  {
  }

  lemma AnsweredBatch(s: State, step: BatchStep)
    requires Answered(s) && Stages(s) && EnabledBatch(s, step)
    ensures Answered(DoBatch(s, step))
  {
  }

  lemma AnsweredRun(s: State, step: RunStep)
    requires Answered(s) && EnabledRun(s, step)
    ensures Answered(DoRun(s, step))
  {
    if step.RunStart? { MakeWordsRequests(step.kinds, |s.issued|); }
    hide RequestsOf, MakeWords;
  }

  lemma AnsweredRead(s: State)
    requires Answered(s) && EnabledReader(s, ReaderRead)
    ensures Answered(DoReader(s, ReaderRead))
  {
    hide AllReturn, Due;
  }

  lemma AnsweredSet(s: State)
    requires Answered(s) && Matched(s) && EnabledReader(s, ReaderSet)
    ensures Answered(DoReader(s, ReaderSet))
  {
    OwnersOf(s.reader.got);
    hide Owners;
  }

  lemma AnsweredReader(s: State, step: ReaderStep)
    requires Answered(s) && Matched(s) && EnabledReader(s, step)
    ensures Answered(DoReader(s, step))
  {
    hide Owners, Truthful;
    match step
    case ReaderRead => AnsweredRead(s);
    case ReaderPop => hide Due;
    case ReaderSet => AnsweredSet(s);
    case ReaderRest => assert Truthful([]);
    case ReaderDump => assert Truthful([]);
    case _ => hide Due;
  }

  // Order

  /** Requests of the batch whose words are still to be written. */
  function OnTheWay(t: Task): seq<Req> {
    if !t.Batch? then []
    else if t.stage == Sent && |t.todo| > 0 then t.todo[1..]
    else t.todo
  }

  /** Queued requests are written in the order they were pushed. */
  ghost predicate Ordered(s: State) {
    s.pushed == s.wire + OnTheWay(s.task) + s.reqQueue
  }

  lemma OrderedOuter(s: State, step: OuterStep)
    requires Ordered(s) && EnabledOuter(s, step)
    ensures Ordered(DoOuter(s, step))
  {
  }

  lemma Next<T>(a: seq<T>, b: seq<T>, c: seq<T>)
    ensures |b| > 0 ==> a + b + c == (a + [b[0]]) + b[1..] + c
    ensures forall n :: 0 <= n <= |c| ==> a + [] + c == a + c[..n] + c[n..]
  {
  }

  lemma OrderedBatch(s: State, step: BatchStep)
    requires Ordered(s) && Stages(s) && EnabledBatch(s, step)
    ensures Ordered(DoBatch(s, step))
  {
    Next(s.wire, OnTheWay(s.task), s.reqQueue);
    hide Space, RequestsOf;
  }

  lemma OrderedRun(s: State, step: RunStep)
    requires Ordered(s) && EnabledRun(s, step)
    ensures Ordered(DoRun(s, step))
  {
  }

  lemma OrderedReader(s: State, step: ReaderStep)
    requires Ordered(s) && EnabledReader(s, step)
    ensures Ordered(DoReader(s, step))
  {
  }

  // Conservation

  /** Requests held by the thread with the lock and in no queue. */
  function InTask(t: Task): seq<Req> {
    match t
    case Batch(todo, stage, _, _) => if stage == Pushed && |todo| > 0 then todo[1..] else todo
    case RunPush(_, toPush, _) => toPush
    case _ => []
  }

  function InReader(r: Reader): seq<Req> {
    match r
    case Popped(reqs, _) => reqs
    case Setting(reqs, _) => reqs
    case Dumping(reqs) => reqs
    case _ => []
  }

  function Times(rs: seq<Req>, r: Req): nat {
    multiset(rs)[r]
  }

  lemma TimesSplit(rs: seq<Req>, n: nat, r: Req)
    requires n <= |rs|
    ensures Times(rs, r) == Times(rs[..n], r) + Times(rs[n..], r)
  {
    assert rs == rs[..n] + rs[n..];
  }

  lemma TimesFirst(rs: seq<Req>, r: Req)
    requires |rs| > 0
    ensures Times(rs, r) == (if rs[0] == r then 1 else 0) + Times(rs[1..], r)
  {
    assert rs == [rs[0]] + rs[1..];
  }

  lemma TimesSnoc(rs: seq<Req>, x: Req, r: Req)
    ensures Times(rs + [x], r) == Times(rs, r) + if x == r then 1 else 0
  {
  }

  lemma TimesConcat(rs: seq<Req>, more: seq<Req>, r: Req)
    ensures Times(rs + more, r) == Times(rs, r) + Times(more, r)
  {
  }

  lemma TimesNone(r: Req)
    ensures Times([], r) == 0
  {
  }

  /** How often a request is in the places a request can be. */
  function Found(s: State, r: Req): nat {
    Times(s.reqQueue, r) + Times(InTask(s.task), r) + Times(s.resQueue, r) + Times(s.notifyQueue, r) +
    Times(InReader(s.reader), r) + Times(Owners(s.completed), r)
  }

  /** Every request is in exactly one place as often as it was issued. */
  ghost predicate Conserved(s: State) {
    forall r :: Times(s.issued, r) == Found(s, r)
  }

  /** The ids of issued requests are their numbers, so no request is issued twice. */
  ghost predicate Numbered(s: State) {
    forall i :: 0 <= i < |s.issued| ==> s.issued[i].id == i
  }

  lemma NumberedKept(s: State, step: Step)
    requires Numbered(s) && Enabled(s, step)
    ensures Numbered(Do(s, step))
  {
    match step
    case Outer(_) =>
    case Batching(_) =>
    case Read(_) =>
    case Running(run) =>
      if run.RunStart? { MakeWordsRequests(run.kinds, |s.issued|); }
      hide MakeWords, RequestsOf;
  }

  lemma FoundOuter(s: State, step: OuterStep, r: Req)
    requires Conserved(s) && EnabledOuter(s, step)
    ensures Times(DoOuter(s, step).issued, r) == Found(DoOuter(s, step), r)
  {
    hide Owners, Times;
    assert Times(s.issued, r) == Found(s, r);
    if step.PushReq? {
      var x := Req(|s.issued|, step.hasRes, step.answer);
      TimesSnoc(s.issued, x, r);
      TimesSnoc(s.reqQueue, x, r);
    }
  }

  lemma FoundBatch(s: State, step: BatchStep, r: Req)
    requires Conserved(s) && Stages(s) && EnabledBatch(s, step)
    ensures Times(DoBatch(s, step).issued, r) == Found(DoBatch(s, step), r)
  {
    hide Owners, Times;
    assert Times(s.issued, r) == Found(s, r);
    TimesNone(r);
    match step
    case PopBatch => TimesSplit(s.reqQueue, Min(s.task.num, |s.reqQueue|), r);
    case PushResult =>
      TimesFirst(s.task.todo, r);
      TimesSnoc(s.resQueue, s.task.todo[0], r);
    case CompleteWritten =>
      var x := s.task.todo[0];
      TimesFirst(s.task.todo, r);
      TimesSnoc(s.notifyQueue, x, r);
      TimesSnoc(Owners(s.completed), x, r);
      OwnersSnoc(s.completed, Result(x, 0));
    case _ =>
  }

  lemma FoundRun(s: State, step: RunStep, r: Req)
    requires Conserved(s) && EnabledRun(s, step)
    ensures Times(DoRun(s, step).issued, r) == Found(DoRun(s, step), r)
  {
    hide Owners, Times, MakeWords, RequestsOf;
    assert Times(s.issued, r) == Found(s, r);
    TimesNone(r);
    match step
    case RunStart(kinds) => TimesConcat(s.issued, RequestsOf(MakeWords(kinds, |s.issued|)), r);
    case RunPushOne =>
      TimesFirst(s.task.toPush, r);
      TimesSnoc(s.resQueue, s.task.toPush[0], r);
    case _ =>
  }

  lemma FoundCompletion(s: State, res: Result, r: Req)
    requires |InReader(s.reader)| > 0 && res.owner == InReader(s.reader)[0]
    ensures Times(InReader(s.reader), r) + Times(Owners(s.completed), r)
            == Times(InReader(s.reader)[1..], r) + Times(Owners(s.completed + [res]), r)
  {
    hide Times, Owners;
    TimesFirst(InReader(s.reader), r);
    OwnersSnoc(s.completed, res);
    TimesSnoc(Owners(s.completed), res.owner, r);
  }

  lemma FoundReader(s: State, step: ReaderStep, r: Req)
    requires Conserved(s) && Matched(s) && EnabledReader(s, step)
    ensures Times(DoReader(s, step).issued, r) == Found(DoReader(s, step), r)
  {
    hide Times;
    assert Times(s.issued, r) == Found(s, r);
    TimesNone(r);
    match step
    case ReaderPop => TimesSplit(s.resQueue, Min(|s.reader.got|, |s.resQueue|), r);
    case ReaderSet => FoundCompletion(s, Result(s.reader.reqs[0], s.reader.got[0].value), r);
    case ReaderDump => TimesSplit(s.notifyQueue, Min(|s.notifyQueue|, BUF_SIZE), r);
    case ReaderDumpOne => FoundCompletion(s, Result(s.reader.reqs[0], 0), r);
    case ReaderRest => assert Owners([]) == [];
    case _ =>
    hide Owners;
  }

  lemma ConservedKept(s: State, step: Step)
    requires Conserved(s) && Stages(s) && Matched(s) && Enabled(s, step)
    ensures Conserved(Do(s, step))
  {
    hide Times, Found, DoOuter, DoBatch, DoRun, DoReader;
    forall r ensures Times(Do(s, step).issued, r) == Found(Do(s, step), r) {
      match step
      case Outer(outer) => FoundOuter(s, outer, r);
      case Batching(batch) => FoundBatch(s, batch, r);
      case Running(run) => FoundRun(s, run, r);
      case Read(read) => FoundReader(s, read, r);
    }
  }

  lemma {:induction false} IssuedOnce(rs: seq<Req>, r: Req)
    requires forall i :: 0 <= i < |rs| ==> rs[i].id == i
    ensures Times(rs, r) == if r in rs then 1 else 0
  {
    if rs != [] {
      var n := |rs| - 1;
      IssuedOnce(rs[..n], r);
      assert rs == rs[..n] + [rs[n]];
      TimesSnoc(rs[..n], rs[n], r);
    } else {
      TimesNone(r);
    }
  }

  // The requests of a synchronous command

  function OfRun(t: Task): seq<Req> {
    match t
    case RunPush(_, _, words) => RequestsOf(words)
    case RunCheck(words) => RequestsOf(words)
    case RunParked(words) => RequestsOf(words)
    case RunWrite(_, _, all) => all
    case RunAwait(all) => all
    case _ => []
  }

  /** A synchronous command's requests return results and were never queued; and a planned batch is not empty. */
  ghost predicate Separate(s: State) {
    && (forall r :: r in s.pushed ==> r in s.issued)
    && (forall r :: r in OfRun(s.task) ==> r in s.issued && r.hasRes && r !in s.pushed)
    && (s.task.Planned? ==> s.task.num > 0)
  }

  lemma SeparateOuter(s: State, step: OuterStep)
    requires Separate(s) && Numbered(s) && EnabledOuter(s, step)
    ensures Separate(DoOuter(s, step))
  {
    hide RequestsOf, Space;
  }

  lemma SeparateRun(s: State, step: RunStep)
    requires Separate(s) && Numbered(s) && EnabledRun(s, step)
    ensures Separate(DoRun(s, step))
  {
    if step.RunStart? { MakeWordsRequests(step.kinds, |s.issued|); }
    hide RequestsOf, Space, MakeWords;
  }

  lemma SeparateKept(s: State, step: Step)
    requires Separate(s) && Numbered(s) && Enabled(s, step)
    ensures Separate(Do(s, step))
  {
    match step
    case Outer(outer) => SeparateOuter(s, outer);
    case Running(run) => SeparateRun(s, run);
    case Batching(_) => hide RequestsOf, Space;
    case Read(_) => hide RequestsOf, Space, Owners;
  }

  // Rounds

  /** A round of the reader is about at least one result; only the background writer starts its round with the lock. */
  predicate Rounds(s: State) {
    && (s.reader.Reading? ==> s.reader.n > 0)
    && (s.reader.Counted? || s.reader.Popped? ==> |s.reader.got| > 0)
    && (s.task.Entering? ==> s.holder == Background)
  }

  lemma RoundsKept(s: State, step: Step)
    requires Rounds(s) && Enabled(s, step)
    ensures Rounds(Do(s, step))
  {
    hide MakeWords, RequestsOf, Space;
    match step
    case Outer(_) =>
    case Batching(_) =>
    case Running(_) =>
    case Read(_) =>
  }
}
