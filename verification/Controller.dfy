/** The controller as the real-time thread sees it while it holds the controller's lock. */
module Controller {
  import opened Bits
  import opened Common
  import opened Commands
  import opened Fpga

  /** What the other threads do between two calls: requests pushed, results read, notifications sent. */
  datatype Traffic = Traffic(arrivals: seq<Request>, results: nat, notified: bool)

  /** Where the requests that were written are: awaiting a result, awaiting a notification, done. */
  datatype Written = Written(resQueue: seq<Request>, notifyQueue: seq<Request>, completed: seq<Request>) {
    function Add(r: Request, notify: bool): Written {
      if r.cmd.HasRes() then this.(resQueue := resQueue + [r])
      else if notify then this.(completed := completed + [r])
      else this.(notifyQueue := notifyQueue + [r])
    }

    function AddAll(rs: seq<Request>, notify: bool): Written {
      if rs == [] then this else AddAll(rs[..|rs| - 1], notify).Add(rs[|rs| - 1], notify)
    }

    function Count(): multiset<Request> {
      multiset(resQueue) + multiset(notifyQueue) + multiset(completed)
    }
  }

  /** A batch goes, in order: to the result queue, or to be notified by the reader or at once. */
  lemma {:induction false} AddAllRoutes(w: Written, rs: seq<Request>, notify: bool)
    ensures w.AddAll(rs, notify).resQueue == w.resQueue + Returning(rs, true)
    ensures w.AddAll(rs, notify).notifyQueue == if notify then w.notifyQueue else w.notifyQueue + Returning(rs, false)
    ensures w.AddAll(rs, notify).completed == if notify then w.completed + Returning(rs, false) else w.completed
  {
    if rs == [] {
    } else {
      AddAllRoutes(w, rs[..|rs| - 1], notify);
    }
  }

  /** Where all requests are: queued, written and where to, and sent, in order. */
  datatype Desk = Desk(reqQueue: seq<Request>, written: Written, sent: seq<Request>) {
    /** After other threads pushed requests, results were read and notifications sent. */
    function Hear(t: Traffic): Desk {
      var read := Min(t.results, |written.resQueue|);
      var notified := if t.notified then written.notifyQueue[..Min(BUF_SIZE, |written.notifyQueue|)] else [];
      Desk(reqQueue + t.arrivals,
           Written(written.resQueue[read..], written.notifyQueue[|notified|..],
                   written.completed + written.resQueue[..read] + notified),
           sent)
    }

    /** How many requests one call writes: none without room for a result, even if none is needed. */
    function BatchSize(maxNum: nat): (n: nat)
      ensures n <= |reqQueue|
    {
      Max(0, Min(Min(maxNum, MAX_WRITE - |written.resQueue|), |reqQueue|))
    }

    /** The requests one call writes. */
    function Batch(maxNum: nat): seq<Request> {
      reqQueue[..BatchSize(maxNum)]
    }

    /** After one call writes as many requests as it may, oldest first. */
    function Write(maxNum: nat, notify: bool): Desk {
      Desk(reqQueue[BatchSize(maxNum)..], written.AddAll(Batch(maxNum), notify), sent + Batch(maxNum))
    }
  }

  /** A call writes requests until it meets its limit, the room for results, or the end of the queue. */
  lemma BatchStops(d: Desk, maxNum: nat)
    ensures var batch, r := d.Batch(maxNum), d.Write(maxNum, true).reqQueue;
            && d.reqQueue == batch + r
            && |batch| <= maxNum && (|batch| == 0 || |d.written.resQueue| + |batch| <= 15)
            && (|batch| == maxNum || |d.written.resQueue| + |batch| >= 15 || r == [])
  {
  }

  /** A single request goes to the result queue, to completion, or to the notify queue. */
  lemma AddOne(w: Written, r: Request, notify: bool)
    ensures w.Add(r, notify) == if r.cmd.HasRes() then Written(w.resQueue + [r], w.notifyQueue, w.completed)
                                else if notify then Written(w.resQueue, w.notifyQueue, w.completed + [r])
                                else Written(w.resQueue, w.notifyQueue + [r], w.completed)
  {
  }

  lemma NoRequests(w: Written, notify: bool)
    ensures w.AddAll([], notify) == w && TotalLength([]) == 0 && Returning([], true) == []
  {
  }

  /** What one more request of a batch adds. */
  lemma OneMoreRequest(w: Written, reqs: seq<Request>, i: nat, notify: bool)
    requires i < |reqs|
    ensures reqs[..i + 1] == reqs[..i] + [reqs[i]]
    ensures w.AddAll(reqs[..i + 1], notify) == w.AddAll(reqs[..i], notify).Add(reqs[i], notify)
    ensures TotalLength(reqs[..i + 1]) == TotalLength(reqs[..i]) + reqs[i].cmd.Length()
    ensures |Returning(reqs[..i + 1], true)| == |Returning(reqs[..i], true)| + if reqs[i].cmd.HasRes() then 1 else 0
  {
    hide Written.Add, SimpleCmd.Length;
    assert reqs[..i + 1][..i] == reqs[..i];
  }

  lemma AddCounts(w: Written, r: Request, notify: bool)
    ensures w.Add(r, notify).Count() == w.Count() + multiset{r}
  {
  }

  lemma {:induction false} AddAllCounts(w: Written, rs: seq<Request>, notify: bool)
    ensures w.AddAll(rs, notify).Count() == w.Count() + multiset(rs)
  {
    if rs == [] {
    } else {
      var front, last := rs[..|rs| - 1], rs[|rs| - 1];
      AddAllCounts(w, front, notify);
      AddCounts(w.AddAll(front, notify), last, notify);
      hide Written.Count, Written.Add;
      assert rs == front + [last];
    }
  }

  /** The wrapping counters differ by the number of results outstanding, whatever they wrapped to. */
  lemma CounterRead(written: u32, read: u32, n: nat)
    requires n <= (written - read) % WORD
    ensures (written - (read + n) % WORD) % WORD == (written - read) % WORD - n
  {
  }

  lemma CounterWritten(written: u32, read: u32, n: nat)
    requires (written - read) % WORD + n < WORD
    ensures ((written + n) % WORD - read) % WORD == (written - read) % WORD + n
  {
  }

  /**
   Each request pushed is in the queue or sent, in order; each one sent is in exactly one place; and
   the counters differ by the requests that await a result, never more than the FPGA can hold.
   */
  ghost predicate Consistent(issued: seq<Request>, sent: seq<Request>, reqQueue: seq<Request>, w: Written,
                             numRead: u32, numWritten: u32) {
    && issued == sent + reqQueue
    && multiset(sent) == w.Count()
    && (numWritten - numRead) % WORD == |w.resQueue| <= MAX_WRITE
  }

  lemma ConsistentAfterPush(issued: seq<Request>, sent: seq<Request>, reqQueue: seq<Request>, w: Written,
                            numRead: u32, numWritten: u32, more: seq<Request>)
    requires Consistent(issued, sent, reqQueue, w, numRead, numWritten)
    ensures Consistent(issued + more, sent, reqQueue + more, w, numRead, numWritten)
  {
  }

  lemma ConsistentAfterReading(issued: seq<Request>, sent: seq<Request>, reqQueue: seq<Request>, w: Written,
                               numRead: u32, numWritten: u32, n: nat)
    requires n <= |w.resQueue|
    requires Consistent(issued, sent, reqQueue, w, numRead, numWritten)
    ensures Consistent(issued, sent, reqQueue, Written(w.resQueue[n..], w.notifyQueue, w.completed + w.resQueue[..n]),
                       (numRead + n) % WORD, numWritten)
  {
    assert w.resQueue == w.resQueue[..n] + w.resQueue[n..];
    CounterRead(numWritten, numRead, n);
  }

  lemma ConsistentAfterNotifying(issued: seq<Request>, sent: seq<Request>, reqQueue: seq<Request>, w: Written,
                                 numRead: u32, numWritten: u32, n: nat)
    requires n <= |w.notifyQueue|
    requires Consistent(issued, sent, reqQueue, w, numRead, numWritten)
    ensures Consistent(issued, sent, reqQueue,
                       Written(w.resQueue, w.notifyQueue[n..], w.completed + w.notifyQueue[..n]), numRead, numWritten)
  {
    assert w.notifyQueue == w.notifyQueue[..n] + w.notifyQueue[n..];
  }

  lemma ConsistentAfterWriting(issued: seq<Request>, sent: seq<Request>, reqQueue: seq<Request>, w: Written,
                               numRead: u32, numWritten: u32, n: nat, notify: bool)
    requires n <= |reqQueue| && |w.resQueue| + n <= MAX_WRITE
    requires Consistent(issued, sent, reqQueue, w, numRead, numWritten)
    ensures Consistent(issued, sent + reqQueue[..n], reqQueue[n..], w.AddAll(reqQueue[..n], notify),
                       numRead, (numWritten + |Returning(reqQueue[..n], true)|) % WORD)
  {
    var batch := reqQueue[..n];
    ReturningSplits(batch);
    assert issued == (sent + batch) + reqQueue[n..] by {
      assert reqQueue == batch + reqQueue[n..];
    }
    assert multiset(sent + batch) == w.AddAll(batch, notify).Count() by {
      AddAllCounts(w, batch, notify);
    }
    assert |w.AddAll(batch, notify).resQueue| == |w.resQueue| + |Returning(batch, true)| by {
      AddAllRoutes(w, batch, notify);
    }
    CounterWritten(numWritten, numRead, |Returning(batch, true)|);
    hide Returning, Written.AddAll, Written.Count;
  }

  lemma SignedSpace(written: u32, read: u32)
    requires (written - read) % WORD <= MAX_WRITE
    ensures ToInt32((MAX_WRITE - written + read) % WORD) == MAX_WRITE - (written - read) % WORD
  {
  }

  class Controller {
    var log: seq<Entry>
    var held: bool
    var releases: nat
    var reqQueue: seq<Request>
    var resQueue: seq<Request>
    var notifyQueue: seq<Request>
    var completed: seq<Request>
    var numRead: u32
    var numWritten: u32
    var turn: nat
    const traffic: seq<Traffic>

    /** Every request ever pushed, in the order of pushing. */
    ghost var issued: seq<Request>

    /** The traffic of one turn; after the schedule ends nothing more happens. */
    function Now(turn: nat): Traffic {
      if turn < |traffic| then traffic[turn] else Traffic([], 0, false)
    }

    /** How many requests are still to be pushed from a turn on. */
    function Arrivals(turn: nat): nat
      decreases |traffic| - turn
    {
      if turn >= |traffic| then 0 else |traffic[turn].arrivals| + Arrivals(turn + 1)
    }

    /** Requests in the queue or still to be pushed. */
    function Pending(): nat
      reads this`reqQueue, this`turn
    {
      |reqQueue| + Arrivals(turn)
    }

    function Places(): Written
      reads this`resQueue, this`notifyQueue, this`completed
    {
      Written(resQueue, notifyQueue, completed)
    }

    function AllPlaces(): Desk
      reads this`reqQueue, this`resQueue, this`notifyQueue, this`completed, this`log
    {
      Desk(reqQueue, Places(), Sent(log))
    }

    ghost predicate Valid()
      reads this
    {
      Consistent(issued, Sent(log), reqQueue, Places(), numRead, numWritten)
    }

    constructor (traffic: seq<Traffic>)
      ensures Valid()
      ensures log == [] && reqQueue == [] && resQueue == [] && notifyQueue == [] && completed == []
      ensures !held && releases == 0 && turn == 0 && issued == [] && this.traffic == traffic
    {
      log, held, releases := [], false, 0;
      reqQueue, resQueue, notifyQueue, completed := [], [], [], [];
      numRead, numWritten, turn := 0, 0, 0;
      this.traffic := traffic;
      issued := [];
    }

    /** The source's signed space computation on the wrapping counters. */
    function ResBuffSpace(): (space: int)
      requires Valid()
      reads this
      ensures space == 15 - |resQueue|
    {
      SignedSpace(numWritten, numRead);
      ToInt32((MAX_WRITE - numWritten + numRead) % WORD)
    }

    method ReleaseHold()
      requires Valid()
      modifies this`held, this`releases
      ensures Valid() && !held && releases == old(releases) + 1
    {
      held := false;
      releases := releases + 1;
    }

    /** One word of the program. */
    method ShortPulse(ctrl: u32, op: u32)
      requires Valid()
      modifies this`log
      ensures Valid()
      ensures log == old(log) + [Entry(ctrl, op, Program)] && Sent(log) == old(Sent(log))
      ensures Elapsed(log) == old(Elapsed(log)) + Duration(ctrl)
      ensures Pulses(log) == old(Pulses(log)) +
                             if Opcode(ctrl) != OP_WAIT then [Pulse(old(Elapsed(log)), ctrl, op)] else []
    {
      hide Consistent;
      Appended(log, Entry(ctrl, op, Program));
      log := log + [Entry(ctrl, op, Program)];
    }

    /** Requests pushed by other threads. */
    method PushRequests(more: seq<Request>)
      requires Valid()
      modifies this`reqQueue, this`issued
      ensures Valid() && reqQueue == old(reqQueue) + more && issued == old(issued) + more
    {
      hide Consistent;
      ConsistentAfterPush(issued, Sent(log), reqQueue, Places(), numRead, numWritten, more);
      reqQueue := reqQueue + more;
      issued := issued + more;
    }

    /** n results read by the reader, which completes the n oldest requests waiting for one. */
    method ReadResults(n: nat)
      requires Valid() && n <= |resQueue|
      modifies this`resQueue, this`completed, this`numRead
      ensures Valid()
      ensures completed == old(completed) + old(resQueue)[..n] && resQueue == old(resQueue)[n..]
    {
      hide Consistent;
      ConsistentAfterReading(issued, Sent(log), reqQueue, Places(), numRead, numWritten, n);
      numRead := (numRead + n) % WORD;
      completed := completed + resQueue[..n];
      resQueue := resQueue[n..];
    }

    /** The oldest notifications left to the reader are sent, at most 32 of them. */
    method DumpNotifyQueue()
      requires Valid()
      modifies this`notifyQueue, this`completed
      ensures Valid()
      ensures var n := Min(BUF_SIZE, |old(notifyQueue)|);
              completed == old(completed) + old(notifyQueue)[..n] && notifyQueue == old(notifyQueue)[n..]
    {
      hide Consistent;
      var n := Min(BUF_SIZE, |notifyQueue|);
      ConsistentAfterNotifying(issued, Sent(log), reqQueue, Places(), numRead, numWritten, n);
      completed := completed + notifyQueue[..n];
      notifyQueue := notifyQueue[n..];
    }

    /** The next turn of the other threads. */
    method OtherThreads()
      requires Valid()
      modifies this`reqQueue, this`resQueue, this`notifyQueue, this`completed, this`numRead, this`turn, this`issued
      ensures Valid()
      ensures turn == old(turn) + 1
      ensures AllPlaces() == old(AllPlaces()).Hear(Now(old(turn)))
      ensures issued == old(issued) + Now(old(turn)).arrivals
    {
      hide Consistent;
      var now := Now(turn);
      turn := turn + 1;
      PushRequests(now.arrivals);
      ReadResults(Min(now.results, |resQueue|));
      if now.notified { DumpNotifyQueue(); }
    }

    /** One request of a batch: its word, and where the request goes. */
    method WriteOne(req: Request, notify: bool, flags: u32)
      requires flags == 0 || flags == TIMING_CHECK
      modifies this`log, this`resQueue, this`notifyQueue, this`completed
      ensures Places() == old(Places()).Add(req, notify)
      ensures |log| == |old(log)| + 1 && old(log) <= log
      ensures RequestWord(log[|old(log)|], req, flags)
      ensures Sent(log) == old(Sent(log)) + [req]
      ensures Elapsed(log) == old(Elapsed(log)) + req.cmd.Length()
      ensures Pulses(log) == old(Pulses(log))
    {
      if req.cmd.HasRes() {
        resQueue := resQueue + [req];
      }
      CommandTakesItsLength(req.cmd);
      FlagsKeepOpcode(req.cmd.Control(), flags);
      var e := Entry(Or32Of(req.cmd.Control(), flags), req.cmd.Operand(), Queued(req));
      Appended(log, e);
      log := log + [e];
      if !req.cmd.HasRes() {
        if notify {
          completed := completed + [req];
        } else {
          notifyQueue := notifyQueue + [req];
        }
      }
    }

    /** The loop of `writeRequests` over the requests it popped. */
    method WriteAll(reqs: seq<Request>, notify: bool, flags: u32) returns (totalTime: nat, numReturn: nat)
      requires flags == 0 || flags == TIMING_CHECK
      modifies this`log, this`resQueue, this`notifyQueue, this`completed
      ensures Places() == old(Places()).AddAll(reqs, notify)
      ensures old(log) <= log && Sent(log) == old(Sent(log)) + reqs
      ensures RequestWords(log, |old(log)|, reqs, flags)
      ensures totalTime == TotalLength(reqs) && numReturn == |Returning(reqs, true)|
      ensures Elapsed(log) == old(Elapsed(log)) + totalTime
      ensures Pulses(log) == old(Pulses(log))
    {
      hide Or, Elapsed, Pulses, Sent, TotalLength, Returning, Written.AddAll, Written.Add, Places, RequestWord;
      totalTime, numReturn := 0, 0;
      var i := 0;
      NoRequests(Places(), notify);
      while i < |reqs|
        invariant 0 <= i <= |reqs|
        invariant totalTime == TotalLength(reqs[..i]) && numReturn == |Returning(reqs[..i], true)|
        invariant Places() == old(Places()).AddAll(reqs[..i], notify)
        invariant old(log) <= log && Sent(log) == old(Sent(log)) + reqs[..i]
        invariant RequestWords(log, |old(log)|, reqs[..i], flags)
        invariant Elapsed(log) == old(Elapsed(log)) + totalTime
        invariant Pulses(log) == old(Pulses(log))
      {
        OneMoreRequest(old(Places()), reqs, i, notify);
        totalTime := totalTime + reqs[i].cmd.Length();
        numReturn := numReturn + if reqs[i].cmd.HasRes() then 1 else 0;
        WriteOne(reqs[i], notify, flags);
        i := i + 1;
      }
      assert reqs[..i] == reqs;
    }

    /** The requests that `writeRequests` takes from the queue. */
    method PopBatch(maxNum: u32) returns (reqs: seq<Request>)
      requires Valid()
      modifies this`reqQueue
      ensures reqs == old(reqQueue)[..old(AllPlaces()).BatchSize(maxNum)] && |reqs| <= MAX_WRITE - |resQueue|
      ensures reqQueue == old(reqQueue)[old(AllPlaces()).BatchSize(maxNum)..]
    {
      assert |resQueue| <= MAX_WRITE;
      hide Consistent;
      var space := ResBuffSpace();
      if space <= 0 { return []; }
      var numToWrite := Min(maxNum, space);
      if numToWrite == 0 { return []; }
      numToWrite := Min(numToWrite, |reqQueue|);
      reqs := reqQueue[..numToWrite];
      reqQueue := reqQueue[numToWrite..];
    }

    /** `writeRequests`, for a caller that holds the lock. */
    method WriteRequests(maxNum: u32, notify: bool, flags: u32) returns (totalTime: nat)
      requires Valid()
      requires flags == 0 || flags == TIMING_CHECK
      modifies this`log, this`reqQueue, this`resQueue, this`notifyQueue, this`completed, this`numWritten
      ensures Valid()
      ensures AllPlaces() == old(AllPlaces()).Write(maxNum, notify)
      ensures totalTime == TotalLength(old(AllPlaces()).Batch(maxNum)) <= DDS_TIME * maxNum
      ensures old(log) <= log && RequestWords(log, |old(log)|, old(AllPlaces()).Batch(maxNum), flags)
      ensures Elapsed(log) == old(Elapsed(log)) + totalTime
      ensures Pulses(log) == old(Pulses(log))
    {
      hide Or, Consistent, Elapsed, Pulses, Sent, Returning, TotalLength, Written.AddAll, RequestWords;
      var reqs := PopBatch(maxNum);
      ConsistentAfterWriting(issued, Sent(log), old(reqQueue), Places(), numRead, numWritten, |reqs|, notify);
      TotalLengthBound(reqs);
      var numReturn;
      totalTime, numReturn := WriteAll(reqs, notify, flags);
      if numReturn > 0 {
        numWritten := (numWritten + numReturn) % WORD;
      }
    }
  }
}
