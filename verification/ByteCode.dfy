/**
 The runner of bytecode sequences (instruction.cpp:169-292). It keeps the FPGA's program ahead of real
 time, releases the hold once it is ahead, and lets requests in when there is time to spare.
 */
module ByteCode {
  import opened Bits
  import opened Common
  import opened Commands
  import opened Fpga
  import opened Controller
  import opened Semantics
  import opened Runner
  import opened Scores

  /** Whether the call's wait is too short to serve requests in it. */
  predicate IsShort(call: Call) {
    match call
    case Ttl(_, t) => t < 2100
    case Delay(t) => t < 2000
    case _ => true
  }

  /** A wait word of the program of at least low, with the timing check. */
  predicate WaitPiece(e: Entry, low: nat) {
    e.origin == Program && e.op == 0 && 0x2800_0000 + low <= e.ctrl <= 0x28ff_ffff
  }

  /** The least time to write before looking at requests: the unsigned difference as the source takes it. */
  function MinSeqT(seqRt: nat, threshRt: nat): nat {
    Max((seqRt - threshRt) % LONG / 10, 10000)
  }

  /** The longest batch of requests allowed with t left. */
  function MaxRequests(t: u64): nat {
    if t >= 7000 then 8 else t / 1000 + 1
  }

  /** One request for each started 1000 cycles, up to 8. */
  lemma MaxRequestsNumber(t: u64)
    ensures if t >= 7000 then MaxRequests(t) == 8 else 1000 * (MaxRequests(t) - 1) <= t < 1000 * MaxRequests(t)
  {
  }

  /** A tenth of the wrapped difference, rounded down, but at least 10000. */
  lemma MinSeqTNumber(seqRt: nat, threshRt: nat)
    requires seqRt < threshRt <= seqRt + 0x1_0000_0000_0000_0000
    ensures var lag, m := threshRt - seqRt, MinSeqT(seqRt, threshRt);
            m == 10000 || 10 * m <= 0x1_0000_0000_0000_0000 - lag < 10 * (m + 1)
    ensures MinSeqT(seqRt, threshRt) >= 10000
  {
    var lag := threshRt - seqRt;
    assert (seqRt - threshRt) % LONG == if lag == LONG then 0 else LONG - lag;
  }

  /** What a wait keeps account of. */
  datatype Books = Books(heard: Score, time: nat, released: bool, releases: nat) {
    /** Time t passes, and the hold is released if release says so and it was not: once, counted 1000 too much. */
    function After(t: nat, release: bool): Books {
      var first := release && !released;
      Books(heard.(now := heard.now + t), time + t + (if first then 1000 else 0),
            released || release, releases + (if first then 1 else 0))
    }

    function Strike(ctrl: u32, op: u32): Books {
      Books(Score(heard.now + Duration(ctrl), heard.pulses + [Pulse(heard.now, Checked(ctrl), op)]),
            time + Duration(ctrl), released, releases)
    }
  }

  /** Between two moments all time is accounted for, and the hold is released at most once. */
  predicate Accounts(b: Books, b': Books) {
    var first := !b.released && b'.released;
    && (b.released ==> b'.released)
    && b'.time - b.time == b'.heard.now - b.heard.now + (if first then 1000 else 0)
    && b'.releases == b.releases + (if first then 1 else 0)
  }

  /**
   While the sequence is behind, the unsigned difference makes the least time far more than the lag: any wait up to
   2^64 / 20 is then written whole.
   */
  lemma MinSeqTWraps(seqRt: nat, threshRt: nat, t: nat)
    requires seqRt < threshRt < seqRt + LONG / 2 - 100000
    ensures MinSeqT(seqRt, threshRt) > Max((threshRt - seqRt) / 10, 10000)
    ensures t <= LONG / 20 ==> t <= MinSeqT(seqRt, threshRt) + 3000
  {
    assert (seqRt - threshRt) % LONG == LONG - (threshRt - seqRt);
  }

  /** Whether requests of that total may be written at once with t left. */
  predicate Writable(step: nat, t: u64) {
    step <= DDS_TIME * MaxRequests(t)
  }

  /** Nothing that may be written is longer than what is left, exactly when a request's length is left. */
  lemma BatchFits(t: u64)
    ensures (forall step: nat :: Writable(step, t) ==> step <= t) <==> t >= 50
  {
    if t < DDS_TIME { assert Writable(DDS_TIME, t); }
  }

  /**
   Whether a wait may get to serve requests, by its first reading of the clock: the sequence is ahead, or so far behind
   that not even the wrapped least time covers the wait.
   */
  predicate MayServe(shortSeq: bool, seqRt: nat, threshRt: nat, t: u64) {
    shortSeq && t >= 2000 && (seqRt >= threshRt || t > MinSeqT(seqRt, threshRt) + 3000)
  }

  /** A sequence that lags by less than 2^63 serves no requests in a wait of up to 2^64 / 20. */
  lemma LagServesNobody(shortSeq: bool, seqRt: nat, threshRt: nat, t: u64)
    requires seqRt < threshRt < seqRt + LONG / 2 - 100000 && t <= LONG / 20
    ensures !MayServe(shortSeq, seqRt, threshRt, t)
  {
    MinSeqTWraps(seqRt, threshRt, t);
  }

  /** The wrapped least time always catches up with a lag of less than half the range. */
  lemma CatchesUp(seqRt: nat, threshRt: nat)
    requires seqRt < threshRt < seqRt + LONG / 2 - 10
    ensures seqRt + MinSeqT(seqRt, threshRt) * 10 >= threshRt
  {
    assert (seqRt - threshRt) % LONG == LONG - (threshRt - seqRt);
  }

  /** One request of 50 cycles arrives, and nothing else happens that a writer could see. */
  predicate Single(t: Traffic) {
    |t.arrivals| == 1 && !t.arrivals[0].cmd.HasRes() && t.arrivals[0].cmd.Length() == DDS_TIME
  }

  /** What one opportunity does to the requests and to the remaining time t1, which wraps if they take longer. */
  predicate ServedAs(d: Desk, traffic: Traffic, t1: u64, d': Desk, t: u64, step: nat, wrapped: bool) {
    var heard := d.Hear(traffic);
    && d' == heard.Write(MaxRequests(t1), false) && step == TotalLength(heard.Batch(MaxRequests(t1)))
    && t == (t1 - step) % LONG && wrapped == (step > t1) && (wrapped ==> t1 < DDS_TIME)
    && (if wrapped then t1 + LONG == t + step else t1 == t + step)
  }

  lemma Serves(d: Desk, traffic: Traffic, t1: u64, step: nat)
    requires step == TotalLength(d.Hear(traffic).Batch(MaxRequests(t1))) && step <= DDS_TIME * MaxRequests(t1)
    ensures ServedAs(d, traffic, t1, d.Hear(traffic).Write(MaxRequests(t1), false), (t1 - step) % LONG, step, step > t1)
  {
    hide Desk.Hear, Desk.Write, Desk.Batch, TotalLength;
    BatchFits(t1);
    assert step <= t1 || t1 < DDS_TIME by { assert Writable(step, t1); }
  }

  /** Requests that are written are no longer pending. */
  lemma ServedPending(c: Controller, turn: nat, d: Desk, t1: u64, d': Desk, t: u64, step: nat, wrapped: bool)
    requires ServedAs(d, c.Now(turn), t1, d', t, step, wrapped)
    ensures t + step == t1 + (if wrapped then LONG else 0) && (step == 0 ==> !wrapped)
    ensures |d'.reqQueue| + c.Arrivals(turn + 1) + (if step > 0 then 1 else 0) <= |d.reqQueue| + c.Arrivals(turn)
  {
    var heard := d.Hear(c.Now(turn));
    assert |heard.reqQueue| == |d.reqQueue| + |c.Now(turn).arrivals|;
    assert |d'.reqQueue| == |heard.reqQueue| - |heard.Batch(MaxRequests(t1))|;
    if step > 0 { assert |heard.Batch(MaxRequests(t1))| > 0; }
  }

  lemma ServedTime(d: Desk, traffic: Traffic, t1: u64, d': Desk, t: u64, step: nat, wrapped: bool)
    requires ServedAs(d, traffic, t1, d', t, step, wrapped)
    ensures t + step == t1 + if wrapped then LONG else 0
  {
    hide Desk.Hear, Desk.Write, Desk.Batch, TotalLength;
  }

  /** A single request is served at once. */
  lemma ServedSingle(traffic: Traffic, d: Desk, t1: u64, d': Desk, t: u64, step: nat, wrapped: bool)
    requires ServedAs(d, traffic, t1, d', t, step, wrapped)
    requires d.reqQueue == [] && |d.written.resQueue| < MAX_WRITE && Single(traffic)
    ensures step == DDS_TIME && d'.reqQueue == [] && |d'.written.resQueue| < MAX_WRITE
  {
    var heard, r := d.Hear(traffic), traffic.arrivals[0];
    assert heard.reqQueue == [r];
    assert heard.Batch(MaxRequests(t1)) == [r] && [r][..0] == [];
    assert TotalLength([r]) == r.cmd.Length();
    assert heard.written.AddAll([r], false) == heard.written.Add(r, false);
  }

  lemma AddsStep(b: Books, step: nat)
    ensures b.After(step, false) == b.(heard := b.heard.(now := b.heard.now + step), time := b.time + step)
  {
  }

  lemma AfterAfter(b: Books, t1: nat, r1: bool, t2: nat, r2: bool)
    ensures b.After(t1, r1).After(t2, r2) == b.After(t1 + t2, r1 || r2)
    ensures b.After(t1, false) == b.After(t1, b.released)
    ensures b.After(0, false) == b
  {
  }

  /** A pulse and a wait, either or both, are accounted for. */
  lemma PlayedAccounts(b: Books, ctrl: u32, op: u32, t: nat, release: bool)
    requires b.released ==> release
    ensures Accounts(b, b.After(t, release)) && b.After(t, release).heard == b.heard.(now := b.heard.now + t)
    ensures Accounts(b, b.Strike(ctrl, op)) && b.Strike(ctrl, op).released == b.released
    ensures Accounts(b, b.Strike(ctrl, op).After(t, release))
    ensures b.Strike(ctrl, op).heard ==
            Score(b.heard.now + Duration(ctrl), b.heard.pulses + [Pulse(b.heard.now, Checked(ctrl), op)])
    ensures b.Strike(ctrl, op).After(t, release).heard ==
            Score(b.heard.now + Duration(ctrl) + t, b.heard.pulses + [Pulse(b.heard.now, Checked(ctrl), op)])
  {
    hide Duration, Checked;
  }

  class ByteCodeRunner {
    const c: Controller
    const preserveTtl: u32
    const shortSeq: bool
    var released: bool
    var time: nat
    const startTime: nat
    const minTime: nat
    /** Real time, and how far it moves at each reading: as scheduled, then at least one unit a reading. */
    var now: nat
    var readings: nat
    const ticks: seq<nat>

    constructor (c: Controller, preserveTtl: u32, shortSeq: bool, startTime: nat, minTime: nat, ticks: seq<nat>)
      ensures this.c == c && this.preserveTtl == preserveTtl && this.shortSeq == shortSeq
      ensures this.startTime == startTime && this.minTime == minTime && this.ticks == ticks
      ensures !released && time == 0 && now == startTime && readings == 0
    {
      this.c, this.preserveTtl, this.shortSeq := c, preserveTtl, shortSeq;
      this.startTime, this.minTime, this.ticks := startTime, minTime, ticks;
      released, time, now, readings := false, 0, startTime, 0;
    }

    ghost function Heard(): Score
      reads c`log
    {
      Score(Elapsed(c.log), Pulses(c.log))
    }

    ghost function Book(): Books
      reads this, c`log, c`releases
    {
      Books(Heard(), time, released, c.releases)
    }

    /** How far the clock moves up to a reading. */
    function Tick(reading: nat): nat {
      if reading < |ticks| then ticks[reading] else 1
    }

    method GetCoarseTime() returns (t: nat)
      modifies this`now, this`readings
      ensures t == now && readings == old(readings) + 1 && now == old(now) + Tick(old(readings))
    {
      now := now + Tick(readings);
      readings := readings + 1;
      t := now;
    }

    /** A wait in pieces that fit a wait word, none of them a short leftover. */
    method OutputWait(t0: nat)
      requires c.Valid()
      modifies this`time, c`log
      ensures c.Valid() && old(c.log) <= c.log && AllTimed(c.log, |old(c.log)|) && Sent(c.log) == old(Sent(c.log))
      ensures Book() == old(Book()).After(t0, false)
      ensures forall k :: |old(c.log)| <= k < |c.log| ==> WaitPiece(c.log[k], Min(t0, 101))
    {
      hide Or, Consistent, Elapsed, Pulses, Sent;
      time := time + t0;
      var t := t0;
      while t > MAX_FIELD + 100
        invariant c.Valid() && old(c.log) <= c.log && AllTimed(c.log, |old(c.log)|)
        invariant Sent(c.log) == old(Sent(c.log))
        invariant t <= t0 && (t < t0 ==> t > 100)
        invariant Heard() == old(Heard()).(now := old(Heard()).now + (t0 - t))
        invariant forall k :: |old(c.log)| <= k < |c.log| ==> WaitPiece(c.log[k], Min(t0, 101))
        modifies c`log
      {
        t := t - MAX_FIELD;
        ShortWait(c, MAX_FIELD, TIMING_CHECK);
      }
      if t > MAX_FIELD {
        ShortWait(c, t / 2, TIMING_CHECK);
        ShortWait(c, t - t / 2, TIMING_CHECK);
      } else if t > 0 {
        ShortWait(c, t, TIMING_CHECK);
      }
    }

    /** The short wait of `wait`. */
    method WaitAtOnce(t: nat)
      requires c.Valid() && t < 2000
      modifies this`time, c`log
      ensures c.Valid() && old(c.log) <= c.log && AllTimed(c.log, |old(c.log)|) && Sent(c.log) == old(Sent(c.log))
      ensures Book() == old(Book()).After(t, false)
    {
      hide Or, Consistent, Elapsed, Pulses, Sent;
      time := time + t;
      ShortWait(c, t, TIMING_CHECK);
    }

    /** Sequence time in real time. */
    function SeqRt(): nat
      reads this`time
    {
      startTime + time * 10
    }

    /** How far the sequence is ahead of the threshold. */
    function Lead(): nat
      reads this`time, this`now
    {
      Max(SeqRt(), now + minTime) - (now + minTime)
    }

    /** The part of `wait` that is reached when the sequence lags. */
    method CatchUp(t0: u64, threshRt: nat) returns (done: bool, t: u64)
      requires c.Valid() && SeqRt() < threshRt
      modifies this`time, c`log
      ensures c.Valid() && old(c.log) <= c.log && AllTimed(c.log, |old(c.log)|) && Sent(c.log) == old(Sent(c.log))
      ensures done <==> t0 <= MinSeqT(old(SeqRt()), threshRt) + 3000
      ensures t == (if done then 0 else t0 - MinSeqT(old(SeqRt()), threshRt)) && (!done ==> 3000 < t < t0)
      ensures time == old(time) + (t0 - t) && Book() == old(Book()).After(t0 - t, false)
    {
      hide Or, Consistent, Elapsed, Pulses, Sent;
      var minSeqT := MinSeqT(SeqRt(), threshRt);
      if t0 <= minSeqT + 3000 {
        OutputWait(t0);
        return true, 0;
      }
      OutputWait(minSeqT);
      done, t := false, t0 - minSeqT;
    }

    /** The hold is released once, after 1000 more. */
    method Release(t0: u64) returns (t: u64)
      requires c.Valid() && (!released ==> t0 >= 2000)
      modifies this`time, this`released, c`log, c`held, c`releases
      ensures c.Valid() && old(c.log) <= c.log && AllTimed(c.log, |old(c.log)|)
      ensures Sent(c.log) == old(Sent(c.log)) && released
      ensures t == if old(released) then t0 else t0 - 1000
      ensures Book() == old(Book()).After(t0 - t, true)
      ensures if old(released) then time == old(time) else time > old(time)
    {
      hide Or, Consistent, Elapsed, Pulses, Sent;
      t := t0;
      if !released {
        released := true;
        assert t >= 2000;
        time := time + 1000;
        OutputWait(1000);
        t := t - 1000;
        c.ReleaseHold();
      }
    }

    /** The part of `wait` that is reached when the sequence is ahead: release the hold once, then serve requests. */
    method ServeRequests(t0: u64) returns (t: u64, step: nat, wrapped: bool)
      requires c.Valid() && (!released ==> t0 >= 2000)
      modifies this`time, this`released, c`log, c`reqQueue, c`resQueue, c`notifyQueue, c`completed, c`numRead,
               c`numWritten, c`turn, c`issued, c`held, c`releases
      ensures c.Valid() && old(c.log) <= c.log && AllTimed(c.log, |old(c.log)|) && released && c.turn == old(c.turn) + 1
      ensures ServedAs(old(c.AllPlaces()), c.Now(old(c.turn)), if old(released) then t0 else t0 - 1000,
                       c.AllPlaces(), t, step, wrapped)
      ensures t <= t0 + if wrapped then LONG else 0
      ensures Book() == old(Book()).After(t0 + (if wrapped then LONG else 0) - t, true)
      ensures time >= old(time) && (step == 0 && old(released) ==> time == old(time))
    {
      hide Or, Consistent, Elapsed, Pulses, Sent, TotalLength, OldestNext;
      hide Desk.Hear, Desk.Write, Desk.Batch, Books.After, ServedAs;
      ghost var b := Book();
      t := Release(t0);
      ghost var t1 := t;
      step := LetRequestsIn(c, MaxRequests(t), false, TIMING_CHECK);
      Serves(old(c.AllPlaces()), c.Now(old(c.turn)), t, step);
      ServedTime(old(c.AllPlaces()), c.Now(old(c.turn)), t, c.AllPlaces(), (t - step) % LONG, step, step > t);
      wrapped := step > t;
      AfterAfter(b, t0 - t1, true, step, false);
      AddsStep(b.After(t0 - t1, true), step);
      if step > 0 {
        time := time + step;
        t := (t - step) % LONG;
      }
    }

    /** The threshold at the next reading of the clock. */
    function NextThreshRt(): nat
      reads this`now, this`readings
    {
      now + Tick(readings) + minTime
    }

    /** Whether a wait that starts now may get to serve requests. */
    ghost predicate Serving(t: u64)
      reads this`time, this`now, this`readings
    {
      MayServe(shortSeq, SeqRt(), NextThreshRt(), t)
    }

    /** A single request comes at this turn, and none was waiting. */
    ghost predicate SingleNow()
      reads c`reqQueue, c`resQueue, c`turn
    {
      c.reqQueue == [] && |c.resQueue| < MAX_WRITE && Single(c.Now(c.turn))
    }

    /** One round of the loop of `wait`. */
    method Round(t0: u64) returns (done: bool, t: u64, wrapped: bool)
      requires c.Valid() && shortSeq && (!released ==> t0 >= 2000)
      modifies this`time, this`released, this`now, this`readings, c`log, c`reqQueue, c`resQueue, c`notifyQueue,
               c`completed, c`numRead, c`numWritten, c`turn, c`issued, c`held, c`releases
      ensures c.Valid() && old(c.log) <= c.log && AllTimed(c.log, |old(c.log)|)
      ensures (old(released) ==> released) && (!released ==> done || t >= 2000)
      ensures t <= t0 + (if wrapped then LONG else 0) && (done ==> t == 0 && !wrapped) && (wrapped ==> released)
      ensures Book() == old(Book()).After(t0 + (if wrapped then LONG else 0) - t, released)
      ensures readings == old(readings) + 1 && now == old(now) + Tick(old(readings))
      ensures if done || old(SeqRt() < NextThreshRt())
              then c.turn == old(c.turn) && c.AllPlaces() == old(c.AllPlaces()) && released == old(released)
              else c.turn == old(c.turn) + 1
      ensures old(SeqRt() < NextThreshRt()) ==>
                (done <==> t0 <= MinSeqT(old(SeqRt()), old(NextThreshRt())) + 3000)
      ensures done ==> old(SeqRt() < NextThreshRt())
      ensures c.Pending() + (if wrapped then 1 else 0) <= old(c.Pending())
      ensures done || c.Pending() < old(c.Pending()) || t < t0
              || (t == t0 && time == old(time) && SeqRt() >= now + minTime)
      ensures old(SingleNow()) ==> c.reqQueue == [] && |c.resQueue| < MAX_WRITE
      ensures old(SingleNow()) && !wrapped ==> t + (if c.turn > old(c.turn) then DDS_TIME else 0) <= t0
      ensures !done && old(NextThreshRt() < SeqRt() + LONG / 2 - 10) ==> SeqRt() >= now + minTime
    {
      hide Or, Consistent, Elapsed, Pulses, Sent, Books.After, MinSeqT, ServedAs, Single;
      hide Desk.Hear, Desk.Write, Desk.Batch;
      ghost var seqRt := SeqRt();
      wrapped := false;
      var tnow := GetCoarseTime();
      var threshRt := tnow + minTime;
      if SeqRt() < threshRt {
        AfterAfter(Book(), t0, false, 0, false);
        done, t := CatchUp(t0, threshRt);
        AfterAfter(old(Book()), t0 - t, false, 0, false);
        if threshRt < seqRt + LONG / 2 - 10 { CatchesUp(seqRt, threshRt); }
        return;
      }
      done := false;
      ghost var d, turn, t1 := c.AllPlaces(), c.turn, if released then t0 else t0 - 1000;
      var step;
      t, step, wrapped := ServeRequests(t0);
      ServedPending(c, turn, d, t1, c.AllPlaces(), t, step, wrapped);
      if old(SingleNow()) { ServedSingle(c.Now(turn), d, t1, c.AllPlaces(), t, step, wrapped); }
    }

    /**
     Surroundings in which a wait that serves requests cannot end before its time wraps: a request of 50 cycles comes
     at each turn, and the clock stands still after its first reading.
     */
    ghost predicate Crowded(t: nat)
      reads this`time, this`now, this`readings, c`reqQueue, c`resQueue, c`turn
    {
      && c.reqQueue == [] && |c.resQueue| < MAX_WRITE
      && NextThreshRt() < SeqRt() + LONG / 2 - 10
      && (forall k :: c.turn <= k <= c.turn + t / DDS_TIME ==> Single(c.Now(k)))
      && (forall k :: readings < k <= readings + t / DDS_TIME + 2 ==> Tick(k) == 0)
    }

    /** The loop of `wait`. */
    method WaitLong(t0: u64) returns (wraps: nat)
      requires c.Valid() && shortSeq && t0 >= 2000
      modifies this`time, this`released, this`now, this`readings, c`log, c`reqQueue, c`resQueue, c`notifyQueue,
               c`completed, c`numRead, c`numWritten, c`turn, c`issued, c`held, c`releases
      ensures c.Valid() && old(c.log) <= c.log && AllTimed(c.log, |old(c.log)|)
      ensures old(released) ==> released
      ensures Book() == old(Book()).After(t0 + wraps * LONG, released)
      ensures c.Pending() + wraps <= old(c.Pending())
      ensures !old(Serving(t0)) ==> wraps == 0 && c.turn == old(c.turn) && released == old(released)
                                    && c.AllPlaces() == old(c.AllPlaces())
      ensures old(Serving(t0)) && old(Crowded(t0)) ==> wraps > 0
    {
      hide Or, Consistent, Elapsed, Pulses, Sent, Books.After, MinSeqT, Single, Controller.Valid;
      ghost var b := Book();
      AfterAfter(b, 0, false, 0, false);
      var t: u64 := t0;
      var done := false;
      wraps := 0;
      ghost var first := true;
      while !done
        invariant c.Valid() && old(c.log) <= c.log && AllTimed(c.log, |old(c.log)|) && (old(released) ==> released)
        invariant (!released ==> done || t >= 2000) && t <= t0 + wraps * LONG && (done ==> t == 0)
        invariant Book() == b.After(t0 + wraps * LONG - t, released)
        invariant c.Pending() + wraps <= old(c.Pending())
        invariant first ==> !done && time == old(time) && now == old(now) && readings == old(readings) && t == t0
                            && wraps == 0 && c.turn == old(c.turn) && released == old(released)
                            && c.AllPlaces() == old(c.AllPlaces())
        invariant !old(Serving(t0)) && !first ==>
                    done && wraps == 0 && c.turn == old(c.turn) && released == old(released)
                    && c.AllPlaces() == old(c.AllPlaces())
        invariant old(Crowded(t0)) && old(Serving(t0)) && wraps == 0 && !first ==>
                    && !done && c.reqQueue == [] && |c.resQueue| < MAX_WRITE && SeqRt() >= now + minTime
                    && c.turn >= old(c.turn) && (c.turn - old(c.turn)) * DDS_TIME <= t0 - t
                    && old(readings) < readings <= old(readings) + (c.turn - old(c.turn)) + 1
        decreases !done, c.Pending(), t, Max(|ticks|, readings) - readings, Lead()
      {
        ghost var t1, r1, wraps1 := t, released, wraps;
        var wrapped;
        done, t, wrapped := Round(t);
        first := false;
        if wrapped { wraps := wraps + 1; }
        AfterAfter(b, t0 + wraps1 * LONG - t1, r1, t1 + (if wrapped then LONG else 0) - t, released);
      }
    }

    /**
     `wait`. Whatever the clock and the other threads do it ends, and takes its time, and 2^64 more for each time that
     requests wrap the remaining time. That happens only if requests are pending and the wait may serve them; and
     it does happen in some surroundings whenever the wait may serve requests.
     */
    method Wait(t0: u64) returns (wraps: nat)
      requires c.Valid()
      modifies this`time, this`released, this`now, this`readings, c`log, c`reqQueue, c`resQueue, c`notifyQueue,
               c`completed, c`numRead, c`numWritten, c`turn, c`issued, c`held, c`releases
      ensures c.Valid() && old(c.log) <= c.log && AllTimed(c.log, |old(c.log)|)
      ensures old(released) ==> released
      ensures Book() == old(Book()).After(t0 + wraps * LONG, released)
      ensures c.Pending() + wraps <= old(c.Pending())
      ensures !old(Serving(t0)) ==> wraps == 0 && c.turn == old(c.turn) && released == old(released)
                                    && c.AllPlaces() == old(c.AllPlaces())
      ensures old(Serving(t0)) && old(Crowded(t0)) ==> wraps > 0
    {
      hide Or, Consistent, Elapsed, Pulses, Sent, Books.After, Crowded;
      AfterAfter(Book(), t0, false, 0, false);
      wraps := 0;
      if !shortSeq {
        OutputWait(t0);
        return;
      }
      if t0 < 2000 {
        WaitAtOnce(t0);
        return;
      }
      wraps := WaitLong(t0);
    }

    lemma TtlTimes(t: u32)
      requires t <= 1000
      ensures Duration(t) == t && Opcode(t) == OP_TTL
    {
    }

    lemma ShortWaits(t: u64)
      ensures !shortSeq || t < 2000 ==> !Serving(t)
    {
    }

    /** The pulse of a call, and its time, except the wait after a long TTL call. */
    method PlayPulse(ctrl: u32, op: u32)
      requires c.Valid() && Opcode(ctrl) != OP_WAIT
      modifies this`time, c`log
      ensures c.Valid() && old(c.log) <= c.log && AllTimed(c.log, |old(c.log)|)
      ensures Book() == old(Book()).Strike(ctrl, op)
    {
      hide Or, Consistent, Elapsed, Pulses, Sent;
      time := time + Duration(ctrl);
      CheckedShortPulse(c, ctrl, op);
    }

    /** The short pulse of a TTL call, and the wait after it if it is long. */
    method PlayTtl(ttl: u32, t: u64) returns (wraps: nat)
      requires c.Valid()
      modifies this`time, this`released, this`now, this`readings, c`log, c`reqQueue, c`resQueue, c`notifyQueue,
               c`completed, c`numRead, c`numWritten, c`turn, c`issued, c`held, c`releases
      ensures c.Valid() && old(c.log) <= c.log && AllTimed(c.log, |old(c.log)|)
      ensures Accounts(old(Book()), Book())
      ensures Heard() == old(Heard()).Play(Ttl(ttl, t), preserveTtl, wraps)
      ensures c.Pending() + wraps <= old(c.Pending())
      ensures !shortSeq || IsShort(Ttl(ttl, t)) ==> wraps == 0
    {
      hide Or, Or32Of, Consistent, Elapsed, Pulses, Sent, Crowded, Serving, Books.After, Books.Strike, Accounts, Timed;
      hide Duration, Opcode, Checked;
      ghost var b := Book();
      wraps := 0;
      var op := Or32Of(ttl, preserveTtl);
      if t <= 1000 {
        TtlTimes(t);
        PlayedAccounts(b, t, op, 0, b.released);
        PlayPulse(t, op);
      } else {
        TtlTimes(100);
        PlayPulse(100, op);
        ShortWaits(t - 100);
        wraps := Wait(t - 100);
        PlayedAccounts(b, 100, op, t - 100 + wraps * LONG, released);
      }
    }

    /** One call: its pulse and time, and 2^64 more for each time its wait wraps, which a short one does not. */
    method Play(call: Call) returns (wraps: nat)
      requires c.Valid()
      modifies this`time, this`released, this`now, this`readings, c`log, c`reqQueue, c`resQueue, c`notifyQueue,
               c`completed, c`numRead, c`numWritten, c`turn, c`issued, c`held, c`releases
      ensures c.Valid() && old(c.log) <= c.log && AllTimed(c.log, |old(c.log)|)
      ensures Accounts(old(Book()), Book())
      ensures Heard() == old(Heard()).Play(call, preserveTtl, wraps)
      ensures Elapsed(c.log) == old(Elapsed(c.log)) + CallTime(call) + if MayWrap(call) then wraps * LONG else 0
      ensures if call.Delay? then Pulses(c.log) == old(Pulses(c.log))
              else |Pulses(c.log)| == |old(Pulses(c.log))| + 1 && old(Pulses(c.log)) <= Pulses(c.log)
                   && Sounds(call, preserveTtl, Pulses(c.log)[|old(Pulses(c.log))|], old(Elapsed(c.log)))
      ensures c.Pending() + wraps <= old(c.Pending())
      ensures !shortSeq || IsShort(call) ==> wraps == 0
    {
      hide Or, Consistent, Elapsed, Pulses, Sent, Crowded, Serving, Books.After, Books.Strike, Accounts, Timed, Sounds;
      hide CallTime, Duration, Opcode, Checked, Call.Command;
      hide SimpleCmd.Control, SimpleCmd.Operand, SimpleCmd.Length, SimpleCmd.Valid;
      ghost var b := Book();
      wraps := 0;
      match call {
        case Ttl(ttl, t) => wraps := PlayTtl(ttl, t);
        case Delay(t) =>
          ShortWaits(t);
          wraps := Wait(t);
          PlayedAccounts(b, 0, 0, t + wraps * LONG, released);
        case _ =>
          var cmd := call.Command();
          CommandTakesItsLength(cmd);
          PlayedAccounts(b, cmd.Control(), cmd.Operand(), 0, b.released);
          PlayPulse(cmd.Control(), cmd.Operand());
      }
      PlaySounds(b.heard, call, preserveTtl, wraps);
    }

    /**
     A whole sequence and its final word. Whatever the clock and the other threads do, every pulse comes at its time,
     later by 2^64 for each time that a wait before it wrapped; and the runner's own time leads by 1000 once it has
     released the hold. No wait wraps if requests are not served, or all waits are short, or none are pending.
     */
    method RunAll(calls: seq<Call>) returns (wraps: seq<nat>)
      requires c.Valid()
      modifies this`time, this`released, this`now, this`readings, c`log, c`reqQueue, c`resQueue, c`notifyQueue,
               c`completed, c`numRead, c`numWritten, c`turn, c`issued, c`held, c`releases
      ensures c.Valid() && old(c.log) < c.log
      ensures AllTimed(c.log[..|c.log| - 1], |old(c.log)|) && c.log[|c.log| - 1] == Entry(0x2000_0003, 0, Program)
      ensures |wraps| == |calls|
      ensures var score := old(Heard()).PlayAll(calls, preserveTtl, wraps);
              && Heard() == score.(now := score.now + MIN_TIME)
              && Accounts(old(Book()), Book().(heard := score))
      ensures Elapsed(c.log) == old(Elapsed(c.log)) + TimeIn(calls, wraps) + 3
      ensures time == old(time) + TimeIn(calls, wraps) + if released && !old(released) then 1000 else 0
      ensures |Pulses(c.log)| == |old(Pulses(c.log))| + PulsesIn(calls) && old(Pulses(c.log)) <= Pulses(c.log)
      ensures forall j :: 0 <= j < |calls| && !calls[j].Delay? ==>
                SoundsAt(Pulses(c.log), |old(Pulses(c.log))|, old(Elapsed(c.log)), calls, preserveTtl, wraps, j)
      ensures !shortSeq || (forall call :: call in calls ==> IsShort(call)) || old(c.Pending()) == 0 ==>
                forall k :: 0 <= k < |wraps| ==> wraps[k] == 0
    {
      hide Or, Consistent, Elapsed, Pulses, Sent, Score.Play, Sounds, SoundsAt, Timed, PulsesIn, TimeIn, CallTime;
      wraps := [];
      var i := 0;
      while i < |calls|
        invariant 0 <= i <= |calls| && |wraps| == i
        invariant c.Valid() && old(c.log) <= c.log && AllTimed(c.log, |old(c.log)|)
        invariant Heard() == old(Heard()).PlayAll(calls[..i], preserveTtl, wraps)
        invariant Accounts(old(Book()), Book())
        invariant c.Pending() <= old(c.Pending())
        invariant !shortSeq || (forall call :: call in calls ==> IsShort(call)) || old(c.Pending()) == 0 ==>
                    forall k :: 0 <= k < i ==> wraps[k] == 0
      {
        assert calls[..i + 1][..i] == calls[..i];
        var more := Play(calls[i]);
        assert (wraps + [more])[..i] == wraps;
        wraps := wraps + [more];
        i := i + 1;
      }
      assert calls[..i] == calls;
      PlayAllTotals(old(Heard()), calls, preserveTtl, wraps);
      AllSound(old(Heard()), calls, preserveTtl, wraps);
      ShortWait(c, MIN_TIME, 0);
    }
  }

  /** At each turn one request of 50 cycles. */
  function SingleTraffic(n: nat): seq<Traffic> {
    seq(n, (i: nat) => Traffic([Request(i, DdsReset(0))], 0, false))
  }

  lemma SinglesAreSingle(n: nat)
    ensures |SingleTraffic(n)| == n && forall k :: 0 <= k < n ==> Single(SingleTraffic(n)[k])
  {
  }

  /** A runner in any state, in surroundings that make it wrap if anything does. */
  method CrowdedRunner(shortSeq: bool, startTime: nat, time: nat, minTime: nat, now: nat, released: bool, t0: u64)
    returns (runner: ByteCodeRunner)
    ensures fresh(runner) && fresh(runner.c) && runner.c.Valid()
    ensures runner.shortSeq == shortSeq && runner.SeqRt() == startTime + time * 10 && runner.released == released
    ensures runner.NextThreshRt() == now + minTime
    ensures now + minTime < startTime + time * 10 + LONG / 2 - 10 ==> runner.Crowded(t0)
  {
    hide Consistent, Sent, Single, SingleTraffic;
    var n := t0 / DDS_TIME + 1;
    SinglesAreSingle(n);
    var c := new Controller(SingleTraffic(n));
    runner := new ByteCodeRunner(c, 0, shortSeq, startTime, minTime, seq(n + 2, _ => 0));
    runner.time, runner.now, runner.released := time, now, released;
    assert forall k :: 0 <= k < n ==> c.Now(k) == c.traffic[k];
  }

  /**
   The code does not always keep the remaining time from wrapping. For every state of the runner and first reading of
   the clock there are requests and later readings with which `wait` wraps, exactly if it may serve requests: no
   requests and no clock make any other wait wrap. Such requests are shown for a lag below 2^63 at the first reading.
   */
  method WrapsExactly(shortSeq: bool, startTime: nat, time: nat, minTime: nat, now: nat, released: bool, t0: u64)
    returns (wraps: nat)
    ensures wraps > 0 ==> MayServe(shortSeq, startTime + time * 10, now + minTime, t0)
    ensures now + minTime < startTime + time * 10 + LONG / 2 - 10 ==>
              (wraps > 0 <==> MayServe(shortSeq, startTime + time * 10, now + minTime, t0))
  {
    hide Consistent, Sent, Elapsed, Pulses, Books.After, ByteCodeRunner.Crowded, MinSeqT;
    var runner := CrowdedRunner(shortSeq, startTime, time, minTime, now, released, t0);
    wraps := runner.Wait(t0);
  }
}
