/**
 The runner of instruction lists (instruction.cpp:14-165). While it waits it lets the controller
 write queued requests to the same stream, and shortens the wait by the time they take.
 */
module Runner {
  import opened Bits
  import opened Common
  import opened Commands
  import opened Fpga
  import opened Controller
  import opened Instructions
  import opened Semantics

  const T_MAX: nat := 8000
  const MAX_QUIET: nat := 8192

  class CtrlState {
    const ddsPhases: array<u16>
    var currTtl: u32
    var waitTime: u64

    ghost predicate Valid() { ddsPhases.Length == CHANNELS }

    constructor (ddsPhases: array<u16>, currTtl: u32, waitTime: u64)
      requires ddsPhases.Length == CHANNELS
      ensures Valid() && this.ddsPhases == ddsPhases && this.currTtl == currTtl && this.waitTime == waitTime
    {
      this.ddsPhases, this.currTtl, this.waitTime := ddsPhases, currTtl, waitTime;
    }
  }

  /** The state a run shares with its meaning. */
  ghost function Observed(c: Controller, state: CtrlState): Machine
    reads c`log, state, state.ddsPhases
  {
    Machine(state.ddsPhases[..], state.currTtl, Elapsed(c.log), Pulses(c.log))
  }

  predicate IsWait(e: Entry, t: nat) {
    e.origin == Program && Opcode(e.ctrl) == OP_WAIT && Field24(e.ctrl) == t
  }

  lemma WaitNumber(t: nat, flags: u32)
    requires t < 0x100_0000 && (flags == 0 || flags == TIMING_CHECK)
    ensures Or32Of(Or32Of(0x2000_0000, t), flags) == 0x2000_0000 + t + flags
    ensures flags == TIMING_CHECK ==> (0x2000_0000 + t + flags) / 0x800_0000 % 2 == 1
  {
    hide Or;
    WaitWord(t);
    OrTimingCheck(0x2000_0000 + t);
    OrZero(0x2000_0000 + t);
  }

  /** A wait word; its time has to fit the 24-bit field. */
  method ShortWait(c: Controller, t: nat, flags: u32)
    requires c.Valid() && t < 0x100_0000
    requires flags == 0 || flags == TIMING_CHECK
    modifies c`log
    ensures c.Valid() && |c.log| == |old(c.log)| + 1 && old(c.log) <= c.log
    ensures c.log[|old(c.log)|] == Entry(0x2000_0000 + t + flags, 0, Program)
    ensures flags == TIMING_CHECK ==> Timed(c.log[|old(c.log)|])
    ensures IsWait(c.log[|old(c.log)|], t) && Sent(c.log) == old(Sent(c.log))
    ensures Elapsed(c.log) == old(Elapsed(c.log)) + t
    ensures Pulses(c.log) == old(Pulses(c.log))
  {
    hide Or, Consistent, Elapsed, Pulses, Sent;
    WaitWord(t);
    WaitNumber(t, flags);
    FlagsKeepOpcode(Or(0x2000_0000, t), flags);
    c.ShortPulse(Or32Of(Or32Of(0x2000_0000, t), flags), 0);
  }

  method CheckedShortPulse(c: Controller, ctrl: u32, op: u32)
    requires c.Valid()
    modifies c`log
    ensures c.Valid() && old(c.log) <= c.log
    ensures Opcode(ctrl) != OP_WAIT ==> AllTimed(c.log, |old(c.log)|)
    ensures Elapsed(c.log) == old(Elapsed(c.log)) + Duration(ctrl)
    ensures Pulses(c.log) == old(Pulses(c.log)) +
                             if Opcode(ctrl) != OP_WAIT then [Pulse(old(Elapsed(c.log)), Checked(ctrl), op)] else []
  {
    hide Or, Consistent, Elapsed, Pulses, Sent;
    FlagsKeepOpcode(ctrl, TIMING_CHECK);
    CheckedNumber(ctrl);
    c.ShortPulse(Or32Of(ctrl, TIMING_CHECK), op);
  }

  /** The oldest request in the queue was the next to be written. */
  predicate OldestNext(sent: seq<Request>, queue: seq<Request>, sent': seq<Request>) {
    |queue| > 0 && sent + [queue[0]] <= sent'
  }

  lemma SentBatch(d: Desk, traffic: Traffic, maxNum: nat, notify: bool)
    ensures var heard := d.Hear(traffic);
            TotalLength(heard.Batch(maxNum)) == 0 <==> heard.Write(maxNum, notify).sent == d.sent
  {
    var batch := d.Hear(traffic).Batch(maxNum);
    NoTimeNoRequests(batch);
    hide TotalLength, Written.AddAll, Desk.Batch;
    if batch != [] { assert |d.sent + batch| > |d.sent|; }
  }

  lemma OldestWritten(d: Desk, traffic: Traffic, maxNum: nat, notify: bool)
    ensures d.sent <= d.Hear(traffic).Write(maxNum, notify).sent
    ensures maxNum > 0 && |d.reqQueue| > 0 && |d.written.resQueue| < MAX_WRITE ==>
              OldestNext(d.sent, d.reqQueue, d.Hear(traffic).Write(maxNum, notify).sent)
  {
    hide Written.AddAll;
  }

  /** k opportunities from a turn on, as a long wait gives them. */
  function ServeAll(c: Controller, d: Desk, turn: nat, k: nat): Desk {
    if k == 0 then d else ServeAll(c, d, turn, k - 1).Hear(c.Now(turn + k - 1)).Write(T_MAX / 1000, true)
  }

  /** Whether a wait of t, after waitTime of waits without one, is an opportunity for requests. */
  predicate Opportunity(waitTime: u64, t: u64) {
    t >= 1024 || (t >= DDS_TIME && (waitTime + t) % LONG > MAX_QUIET)
  }

  /** How many opportunities a wait gives. */
  function Turns(waitTime: u64, t: u64): nat {
    if !Opportunity(waitTime, t) then 0 else if t < 2 * T_MAX then 1 else t / T_MAX - 1
  }

  /** Where the requests are after a wait: short waits notify nobody and allow a request for each 256 cycles. */
  function AfterWait(c: Controller, d: Desk, turn: nat, waitTime: u64, t: u64): Desk {
    if t >= 2 * T_MAX then ServeAll(c, d, turn, Turns(waitTime, t))
    else if Opportunity(waitTime, t) then d.Hear(c.Now(turn)).Write((t - DDS_TIME) / 256 + 1, false)
    else d
  }

  lemma RequestsTimed(log: seq<Entry>, from: nat, rs: seq<Request>)
    requires RequestWords(log, from, rs, TIMING_CHECK)
    ensures AllTimed(log, from)
  {
    hide Or;
    forall k | from <= k < |log| ensures Timed(log[k]) {
      assert RequestWord(log[from + (k - from)], rs[k - from], TIMING_CHECK);
    }
  }

  /** One opportunity for requests: the other threads' turn, then the source's call. */
  method LetRequestsIn(c: Controller, maxNum: u32, notify: bool, flags: u32) returns (time: nat)
    requires c.Valid()
    requires flags == 0 || flags == TIMING_CHECK
    modifies c`log, c`reqQueue, c`resQueue, c`notifyQueue, c`completed, c`numRead, c`numWritten, c`turn, c`issued
    ensures c.Valid() && old(c.log) <= c.log
    ensures time <= DDS_TIME * maxNum
    ensures RequestWords(c.log, |old(c.log)|, old(c.AllPlaces()).Hear(c.Now(old(c.turn))).Batch(maxNum), flags)
    ensures flags == TIMING_CHECK ==> AllTimed(c.log, |old(c.log)|)
    ensures Elapsed(c.log) == old(Elapsed(c.log)) + time
    ensures Pulses(c.log) == old(Pulses(c.log))
    ensures old(c.issued) <= c.issued && c.turn == old(c.turn) + 1
    ensures var d := old(c.AllPlaces()).Hear(c.Now(old(c.turn)));
            c.AllPlaces() == d.Write(maxNum, notify) && time == TotalLength(d.Batch(maxNum))
    ensures old(Sent(c.log)) <= Sent(c.log) && (time == 0 <==> Sent(c.log) == old(Sent(c.log)))
    ensures maxNum > 0 && |old(c.reqQueue)| > 0 && |old(c.resQueue)| < MAX_WRITE ==>
              OldestNext(old(Sent(c.log)), old(c.reqQueue), Sent(c.log))
  {
    hide Or, Consistent, Elapsed, Pulses, Sent, TotalLength, Desk.Hear, Desk.Write, Desk.Batch, OldestNext;
    hide RequestWords, AllTimed;
    OldestWritten(c.AllPlaces(), c.Now(c.turn), maxNum, notify);
    SentBatch(c.AllPlaces(), c.Now(c.turn), maxNum, notify);
    c.OtherThreads();
    ghost var batch := c.AllPlaces().Batch(maxNum);
    time := c.WriteRequests(maxNum, notify, flags);
    if flags == TIMING_CHECK { RequestsTimed(c.log, |old(c.log)|, batch); }
  }

  /** The wait time accumulated after one more wait: zero after an opportunity for requests. */
  function WaitTimeAfter(waitTime: u64, t: u64): u64 {
    if Opportunity(waitTime, t) then 0
    else if t < DDS_TIME then waitTime
    else (waitTime + t) % LONG
  }

  /** The loop of `runWait`: it goes on by 8000 cycles at a time, with an opportunity for requests in each. */
  method RunLongWait(c: Controller, t: u64, releaseAfter: bool) returns (releaseAfter': bool)
    requires c.Valid() && t >= 2 * T_MAX
    modifies c`log, c`reqQueue, c`resQueue, c`notifyQueue, c`completed, c`numRead, c`numWritten, c`turn, c`issued,
             c`held, c`releases
    ensures c.Valid() && old(c.log) <= c.log && AllTimed(c.log, |old(c.log)|)
    ensures Elapsed(c.log) == old(Elapsed(c.log)) + t
    ensures Pulses(c.log) == old(Pulses(c.log))
    ensures c.turn == old(c.turn) + (t / T_MAX - 1)
    ensures c.AllPlaces() == ServeAll(c, old(c.AllPlaces()), old(c.turn), t / T_MAX - 1)
    ensures c.releases == old(c.releases) + if releaseAfter && !releaseAfter' then 1 else 0
    ensures releaseAfter' == (releaseAfter && Sent(c.log) == old(Sent(c.log)))
    ensures !releaseAfter ==> c.held == old(c.held)
    ensures old(c.issued) <= c.issued && old(Sent(c.log)) <= Sent(c.log)
    ensures |old(c.reqQueue)| > 0 && |old(c.resQueue)| < MAX_WRITE ==>
              OldestNext(old(Sent(c.log)), old(c.reqQueue), Sent(c.log))
  {
    hide Or, Consistent, Elapsed, Pulses, Sent, IsWait, Desk.Hear, Desk.Write, Desk.Batch, Timed, RequestWords;
    releaseAfter' := releaseAfter;
    var left: u64 := t;
    ghost var n := 0;
    while left >= 2 * T_MAX
      invariant c.Valid() && old(c.log) <= c.log && AllTimed(c.log, |old(c.log)|)
      invariant Elapsed(c.log) == old(Elapsed(c.log)) + (t - left)
      invariant Pulses(c.log) == old(Pulses(c.log))
      invariant c.releases == old(c.releases) + if releaseAfter && !releaseAfter' then 1 else 0
      invariant releaseAfter' == (releaseAfter && Sent(c.log) == old(Sent(c.log)))
      invariant !releaseAfter ==> c.held == old(c.held)
      invariant t == left + n * T_MAX && left >= T_MAX && c.turn == old(c.turn) + n
      invariant c.AllPlaces() == ServeAll(c, old(c.AllPlaces()), old(c.turn), n)
      invariant old(c.issued) <= c.issued && old(Sent(c.log)) <= Sent(c.log)
      invariant n > 0 && |old(c.reqQueue)| > 0 && |old(c.resQueue)| < MAX_WRITE ==>
                  OldestNext(old(Sent(c.log)), old(c.reqQueue), Sent(c.log))
      decreases left
    {
      var time := LetRequestsIn(c, T_MAX / 1000, true, TIMING_CHECK);
      var step: u32 := T_MAX - time;
      ShortWait(c, step, TIMING_CHECK);
      if time != 0 && releaseAfter' {
        c.ReleaseHold();
        releaseAfter' := false;
      }
      left := left - T_MAX;
      n := n + 1;
    }
    ShortWait(c, left, TIMING_CHECK);
  }

  /**
   Whatever the wait time so far and whatever the other threads do, a wait takes exactly its length
   and moves no pulse. At an opportunity the oldest queued request is written if there is room for a result.
   */
  method RunWait(c: Controller, waitTime: u64, t: u64, releaseAfter: bool) returns (waitTime': u64, releaseAfter': bool)
    requires c.Valid()
    modifies c`log, c`reqQueue, c`resQueue, c`notifyQueue, c`completed, c`numRead, c`numWritten, c`turn, c`issued,
             c`held, c`releases
    ensures c.Valid() && old(c.log) <= c.log && AllTimed(c.log, |old(c.log)|)
    ensures Elapsed(c.log) == old(Elapsed(c.log)) + t
    ensures Pulses(c.log) == old(Pulses(c.log))
    ensures waitTime' == WaitTimeAfter(waitTime, t)
    ensures c.turn == old(c.turn) + Turns(waitTime, t)
    ensures c.AllPlaces() == AfterWait(c, old(c.AllPlaces()), old(c.turn), waitTime, t)
    ensures c.releases == old(c.releases) + if releaseAfter && !releaseAfter' then 1 else 0
    ensures t < 16000 ==> releaseAfter' == (releaseAfter && !Opportunity(waitTime, t))
    ensures t >= 16000 ==> releaseAfter' == (releaseAfter && Sent(c.log) == old(Sent(c.log)))
    ensures !releaseAfter ==> !releaseAfter' && c.held == old(c.held)
    ensures old(c.issued) <= c.issued && old(Sent(c.log)) <= Sent(c.log)
    ensures Opportunity(waitTime, t) && |old(c.reqQueue)| > 0 && |old(c.resQueue)| < MAX_WRITE ==>
              OldestNext(old(Sent(c.log)), old(c.reqQueue), Sent(c.log))
  {
    hide Or, Consistent, Elapsed, Pulses, Sent, IsWait, Desk.Hear, Desk.Write, Desk.Batch, Timed, RequestWords;
    waitTime', releaseAfter' := waitTime, releaseAfter;
    if t < DDS_TIME {
      ShortWait(c, t, TIMING_CHECK);
      return;
    } else if t < T_MAX * 2 {
      var t32: u32 := t;
      waitTime' := (waitTime' + t32) % LONG;
      if waitTime' > MAX_QUIET || t >= 1024 {
        waitTime' := 0;
        var maxRequests: u32 := (t32 - DDS_TIME) / 256 + 1;
        var time := LetRequestsIn(c, maxRequests, false, TIMING_CHECK);
        t32 := t32 - time;
        if releaseAfter' {
          c.ReleaseHold();
          releaseAfter' := false;
        }
      }
      ShortWait(c, t32, TIMING_CHECK);
      return;
    }
    waitTime' := 0;
    releaseAfter' := RunLongWait(c, t, releaseAfter);
  }

  // The masks of the source pick out the fields.

  lemma InstMask(ctrl: u32)
    ensures And(ctrl, INST_MASK) == Opcode(ctrl) * 0x1000_0000
  {
    Powers();
    AndField(ctrl, 28, 32);
  }

  lemma Nibble(ctrl: nat)
    ensures ctrl % 0x1000_0000 == ctrl / 0x100_0000 % 16 * 0x100_0000 + ctrl % 0x100_0000
  {
    var high, low := ctrl / 0x100_0000, ctrl % 0x100_0000;
    DivModUnique(ctrl, 0x1000_0000, high / 16, high % 16 * 0x100_0000 + low);
  }

  lemma MetaInstMask(ctrl: u32)
    ensures And(ctrl, META_INST_MASK) == ctrl / 0x100_0000 % 16 * 0x100_0000
  {
    hide And;
    Powers();
    AndField(ctrl, 24, 28);
    Nibble(ctrl);
  }

  lemma LowMasks(ctrl: u32)
    ensures And(ctrl, META_CONTENT_MASK) == ctrl % 0x100_0000
    ensures And(ctrl, TTL_ALL) == ctrl % 0x4_0000
  {
    Powers();
    AndLow(ctrl, 24);
    AndLow(ctrl, 18);
  }

  lemma CombTimeValue(ctrl: u32, op: u32)
    ensures Or(And(ctrl, META_CONTENT_MASK) * WORD, op) == ctrl % 0x100_0000 * WORD + op < LONG
  {
    hide Or, And;
    LowMasks(ctrl);
    OrDisjointAt(And(ctrl, META_CONTENT_MASK) * WORD, op);
  }

  function CombTime(ctrl: u32, op: u32): u64 {
    CombTimeValue(ctrl, op);
    Or(And(ctrl, META_CONTENT_MASK) * WORD, op)
  }

  /** Truncating a wrapped 32-bit sum to 16 bits adds phases modulo a turn. */
  lemma PhaseWraps(ctrl: u32, phase: u16)
    ensures (ctrl + phase) % WORD % 0x1_0000 == (phase + ctrl % 0x1_0000) % 0x1_0000
  {
  }

  /** The masks and shifts of the runner read a meta instruction as Decode does. */
  lemma MetaByMasks(ctrl: u32, op: u32)
    requires Opcode(ctrl) == 2
    ensures var kind, address := And(ctrl, META_INST_MASK), And(And(ctrl, META_CONTENT_MASK), TTL_ALL);
            var time := And(ctrl, META_CONTENT_MASK) / 0x4_0000;
            Decode(Instruction(ctrl, op)) ==
            if kind == WAIT_META then Wait(CombTime(ctrl, op))
            else if kind == SET_PHASE_META then SetPhase(op, ctrl % 0x1_0000)
            else if kind == SHIFT_PHASE_META then ShiftPhase(op, ctrl % 0x1_0000)
            else if kind == RESET_META then ResetDds(op)
            else if kind != TTL_META then Ignored
            else if address == TTL_ALL then TtlAll(op, time)
            else TtlBit(address % 0x100, op != 0, time)
    ensures And(ctrl, META_CONTENT_MASK) < 0x100_0000
  {
    hide Or, And;
    MetaInstMask(ctrl);
    LowMasks(ctrl);
    LowMasks(ctrl % 0x100_0000);
    CombTimeValue(ctrl, op);
  }

  method RunCommand(c: Controller, cmd: Cmd)
    requires c.Valid()
    modifies c`log
    ensures c.Valid() && old(c.log) <= c.log && AllTimed(c.log, |old(c.log)|)
    ensures Elapsed(c.log) == old(Elapsed(c.log)) + cmd.Length()
    ensures Pulses(c.log) == old(Pulses(c.log)) + [Pulse(old(Elapsed(c.log)), Checked(cmd.Control()), cmd.Operand())]
  {
    hide Or, Consistent, Elapsed, Pulses, Sent;
    CommandTakesItsLength(cmd);
    CheckedShortPulse(c, cmd.Control(), cmd.Operand());
  }

  method RunDdsSetPhase(c: Controller, state: CtrlState, channel: nat, phase: u16)
    requires c.Valid() && state.Valid() && channel < CHANNELS
    modifies c`log, state.ddsPhases
    ensures c.Valid() && old(c.log) <= c.log && AllTimed(c.log, |old(c.log)|)
    ensures Observed(c, state) == old(Observed(c, state)).SetPhase(channel, phase)
  {
    hide Or, Consistent, Elapsed, Pulses, Sent;
    CommandTakesItsLength(DdsSetTwoBytes(channel, 0x30, phase));
    state.ddsPhases[channel] := phase;
    RunCommand(c, DdsSetTwoBytes(channel, 0x30, phase));
  }

  /** The reset case of `runMetaInstruction`. */
  method RunDdsReset(c: Controller, state: CtrlState, channel: nat)
    requires c.Valid() && state.Valid() && channel < CHANNELS
    modifies c`log, state.ddsPhases
    ensures c.Valid() && old(c.log) <= c.log && AllTimed(c.log, |old(c.log)|)
    ensures Observed(c, state) == old(Observed(c, state)).Step(ResetDds(channel))
  {
    hide Or, Consistent, Elapsed, Pulses, Sent;
    CommandTakesItsLength(DdsReset(channel));
    state.ddsPhases[channel] := 0;
    RunCommand(c, DdsReset(channel));
  }

  method RunTtlMeta(c: Controller, state: CtrlState, ttlCtrl: u32, ttlVal: u32)
    requires c.Valid() && state.Valid()
    requires ttlCtrl < 0x100_0000
    requires And(ttlCtrl, TTL_ALL) != TTL_ALL ==> And(ttlCtrl, TTL_ALL) % 0x100 < 32
    modifies c`log, state`currTtl
    ensures c.Valid() && old(c.log) <= c.log && AllTimed(c.log, |old(c.log)|)
    ensures var ttl: u32 := if And(ttlCtrl, TTL_ALL) == TTL_ALL then ttlVal
                            else SetTtlBit(old(state.currTtl), And(ttlCtrl, TTL_ALL) % 0x100, ttlVal != 0);
            Observed(c, state) == old(Observed(c, state)).SetTtl(ttl, ttlCtrl / 0x4_0000)
  {
    hide Or, And, Consistent, Elapsed, Pulses, Sent;
    var address := And(ttlCtrl, TTL_ALL);
    var time: u32 := ttlCtrl / 0x4_0000;
    if address == TTL_ALL {
      state.currTtl := ttlVal;
    } else {
      state.currTtl := SetTtlBit(state.currTtl, address % 0x100, ttlVal != 0);
    }
    CheckedShortPulse(c, time, state.currTtl);
  }

  method RunMetaInstruction(c: Controller, state: CtrlState, ctrl: u32, op: u32)
    requires c.Valid() && state.Valid()
    requires Opcode(ctrl) == 2 && Decode(Instruction(ctrl, op)).Runnable()
    modifies c`log, c`reqQueue, c`resQueue, c`notifyQueue, c`completed, c`numRead, c`numWritten, c`turn, c`issued,
             c`held, c`releases, state, state.ddsPhases
    ensures c.Valid() && old(c.log) <= c.log && AllTimed(c.log, |old(c.log)|)
    ensures c.held == old(c.held) && old(c.issued) <= c.issued
    ensures Observed(c, state) == old(Observed(c, state)).Step(Decode(Instruction(ctrl, op)))
    ensures state.waitTime == if And(ctrl, META_INST_MASK) == WAIT_META
                              then WaitTimeAfter(old(state.waitTime), CombTime(ctrl, op))
                              else old(state.waitTime)
  {
    hide Or, And, Consistent, Elapsed, Pulses, Sent, Decode, CombTime, WaitTimeAfter;
    MetaByMasks(ctrl, op);
    var kind := And(ctrl, META_INST_MASK);
    if kind == WAIT_META {
      var waitTime, _ := RunWait(c, state.waitTime, CombTime(ctrl, op), false);
      state.waitTime := waitTime;
    } else if kind == SET_PHASE_META {
      RunDdsSetPhase(c, state, op, ctrl % 0x1_0000);
    } else if kind == SHIFT_PHASE_META {
      PhaseWraps(ctrl, state.ddsPhases[op]);
      RunDdsSetPhase(c, state, op, (ctrl + state.ddsPhases[op]) % WORD % 0x1_0000);
    } else if kind == RESET_META {
      RunDdsReset(c, state, op);
    } else if kind == TTL_META {
      RunTtlMeta(c, state, And(ctrl, META_CONTENT_MASK), op);
    }
  }

  method RunInstruction(c: Controller, state: CtrlState, inst: Instruction)
    requires c.Valid() && state.Valid() && Decode(inst).Runnable()
    modifies c`log, c`reqQueue, c`resQueue, c`notifyQueue, c`completed, c`numRead, c`numWritten, c`turn, c`issued,
             c`held, c`releases, state, state.ddsPhases
    ensures c.Valid() && old(c.log) <= c.log && AllTimed(c.log, |old(c.log)|)
    ensures c.held == old(c.held) && old(c.issued) <= c.issued
    ensures Observed(c, state) == old(Observed(c, state)).Step(Decode(inst))
  {
    hide Or, And, Consistent, Elapsed, Pulses, Sent;
    InstMask(inst.ctrl);
    if And(inst.ctrl, INST_MASK) == META_CMD {
      RunMetaInstruction(c, state, inst.ctrl, inst.op);
    } else {
      CheckedShortPulse(c, inst.ctrl, inst.op);
    }
  }

  function DecodeAll(insts: seq<Instruction>): seq<Meaning> {
    seq(|insts|, i requires 0 <= i < |insts| => Decode(insts[i]))
  }

  /**
   The main result: for every program, every schedule of the other threads and every start state, the
   pulses come out as the program means them, at their times, and the run takes the program's time and Min.
   */
  method RunInstructionList(c: Controller, state: CtrlState, insts: seq<Instruction>)
    requires c.Valid() && state.Valid()
    requires AllRunnable(DecodeAll(insts))
    modifies c`log, c`reqQueue, c`resQueue, c`notifyQueue, c`completed, c`numRead, c`numWritten, c`turn, c`issued,
             c`held, c`releases, state, state.ddsPhases
    ensures c.Valid() && old(c.log) < c.log && c.held == old(c.held) && old(c.issued) <= c.issued
    ensures AllTimed(c.log[..|c.log| - 1], |old(c.log)|) && c.log[|c.log| - 1] == Entry(0x2000_0003, 0, Program)
    ensures var meant := Run(old(Observed(c, state)), DecodeAll(insts));
            Observed(c, state) == meant.(now := meant.now + MIN_TIME)
  {
    hide Or, Consistent, Elapsed, Pulses, Sent;
    ghost var program := DecodeAll(insts);
    var i := 0;
    while i < |insts|
      invariant 0 <= i <= |insts|
      invariant c.Valid() && old(c.log) <= c.log && AllTimed(c.log, |old(c.log)|)
      invariant c.held == old(c.held) && old(c.issued) <= c.issued
      invariant Observed(c, state) == Run(old(Observed(c, state)), program[..i])
    {
      assert program[..i + 1][..i] == program[..i];
      assert program[i] == Decode(insts[i]) && program[i].Runnable();
      RunInstruction(c, state, insts[i]);
      i := i + 1;
    }
    assert program[..i] == program;
    ShortWait(c, MIN_TIME, 0);
  }

  // The source's limits, as numbers

  /** What one call with a limit of maxNum leaves: as many requests written as it, the room and the queue allow. */
  ghost predicate Served(d: Desk, d': Desk, maxNum: nat, notify: bool) {
    && d.sent <= d'.sent && d.reqQueue == d'.sent[|d.sent|..] + d'.reqQueue
    && |d'.sent| - |d.sent| == Max(0, Min(Min(maxNum, 15 - |d.written.resQueue|), |d.reqQueue|))
    && if notify then d'.written.notifyQueue == d.written.notifyQueue else d'.written.completed == d.written.completed
  }

  lemma ServedBy(d: Desk, maxNum: nat, notify: bool)
    ensures Served(d, d.Write(maxNum, notify), maxNum, notify)
  {
    AddAllRoutes(d.written, d.Batch(maxNum), notify);
    hide Written.AddAll, Returning;
    var d' := d.Write(maxNum, notify);
    assert d'.sent[|d.sent|..] == d.Batch(maxNum);
  }

  /**
   A wait below 16000 lets requests in if it is 1024 or more, or if it is 50 or more and the waits add up to more than
   8192: one request for each 256 cycles above 50 and one more, and it notifies nobody.
   */
  lemma ShortWaitServes(c: Controller, d: Desk, turn: nat, waitTime: u64, t: u64)
    requires t < 16000
    ensures if t >= 1024 || (t >= 50 && (waitTime + t) % 0x1_0000_0000_0000_0000 > 8192)
            then Turns(waitTime, t) == 1 && WaitTimeAfter(waitTime, t) == 0
                 && Served(d.Hear(c.Now(turn)), AfterWait(c, d, turn, waitTime, t), (t - 50) / 256 + 1, false)
            else Turns(waitTime, t) == 0 && AfterWait(c, d, turn, waitTime, t) == d
                 && WaitTimeAfter(waitTime, t) == if t < 50 then waitTime else (waitTime + t) % 0x1_0000_0000_0000_0000
  {
    hide Desk.Hear, Desk.Write, Served;
    if t >= 50 { ServedBy(d.Hear(c.Now(turn)), (t - 50) / 256 + 1, false); }
  }

  /** A wait of 16000 or more lets up to 8 requests in each 8000 cycles but the last, and notifies at once. */
  lemma LongWaitServes(c: Controller, d: Desk, turn: nat, waitTime: u64, t: u64, k: nat)
    requires t >= 16000 && k + 1 < t / 8000
    ensures Turns(waitTime, t) == t / 8000 - 1 && WaitTimeAfter(waitTime, t) == 0
    ensures ServeAll(c, d, turn, 0) == d
    ensures AfterWait(c, d, turn, waitTime, t) == ServeAll(c, d, turn, t / 8000 - 1)
    ensures Served(ServeAll(c, d, turn, k).Hear(c.Now(turn + k)), ServeAll(c, d, turn, k + 1), 8, true)
  {
    hide Desk.Hear, Desk.Write, Served;
    ServedBy(ServeAll(c, d, turn, k).Hear(c.Now(turn + k)), 8, true);
  }
}
