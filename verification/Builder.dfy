/** The builder of programs (instruction.h:55-215): it keeps the time its instructions take. */
module Builder {
  import opened Bits
  import opened Commands
  import opened Fpga
  import opened Controller
  import opened Instructions
  import opened Semantics
  import opened Runner
  import opened Tracking

  /** A command that InstWriter offers: it returns no result. */
  type WriteCmd = c: Cmd | !c.HasRes() witness ClearTimingCheck

  /** A call of one of InstWriter's functions. */
  datatype Call =
    | CallWait(t: u64)
    | CallSetPhase(i: u32, phase: u16)
    | CallShiftPhase(i: u32, phase: u16)
    | CallReset(i: u32)
    | CallTtlAll(value: u32, time: u8)
    | CallTtl(address: u8, on: bool, time: u8)
    | CallCommand(c: WriteCmd)
  {
    function Inst(): Instruction {
      match this
      case CallWait(t) => WaitInst(t)
      case CallSetPhase(i, phase) => SetPhaseInst(i, phase)
      case CallShiftPhase(i, phase) => ShiftPhaseInst(i, phase)
      case CallReset(i) => ResetInst(i)
      case CallTtlAll(value, t) => TtlAllInst(value, t)
      case CallTtl(address, on, t) => TtlInst(address, on, t)
      case CallCommand(c) => CommandInst(c)
    }

    /** What the call adds to the time it is passed. */
    function Adds(): u64 {
      match this
      case CallWait(t) => t
      case CallSetPhase(_, _) => DDS_TIME
      case CallShiftPhase(_, _) => DDS_TIME
      case CallReset(_) => DDS_TIME
      case CallTtlAll(_, t) => t
      case CallTtl(_, _, t) => t
      case CallCommand(c) => c.Length()
    }

    /** What the caller means. */
    function Meant(): Meaning {
      match this
      case CallWait(t) => Wait(t)
      case CallSetPhase(i, phase) => SetPhase(i, phase)
      case CallShiftPhase(i, phase) => ShiftPhase(i, phase)
      case CallReset(i) => ResetDds(i)
      case CallTtlAll(value, t) => TtlAll(value, t)
      case CallTtl(address, on, t) => TtlBit(address, on, t)
      case CallCommand(c) => Plain(c.Control(), c.Operand())
    }

    /** Whether the time of the call fits its field of the instruction. */
    predicate Fits() {
      match this
      case CallWait(t) => t < 0x100_0000_0000_0000
      case CallTtlAll(_, t) => t < 64
      case CallTtl(_, _, t) => t < 64
      case _ => true
    }
  }

  /** An instruction means what its call meant, exactly when the call's time fits. */
  lemma CallRoundTrip(call: Call)
    ensures Decode(call.Inst()) == call.Meant() <==> call.Fits()
  {
    hide Decode, WaitInst, SetPhaseInst, ShiftPhaseInst, ResetInst, TtlAllInst, TtlInst, CommandInst;
    match call
    case CallWait(t) => WaitRoundTrip(t);
    case CallSetPhase(i, phase) => SetPhaseRoundTrip(i, phase);
    case CallShiftPhase(i, phase) => ShiftPhaseRoundTrip(i, phase);
    case CallReset(i) => ResetRoundTrip(i);
    case CallTtlAll(value, t) => TtlAllRoundTrip(value, t);
    case CallTtl(address, on, t) => TtlRoundTrip(address, on, t);
    case CallCommand(c) => CommandRoundTrip(c);
  }

  /** What each call is written as and adds to the time, in numbers, if it fits. */
  lemma CallWords(call: Call)
    requires call.Fits()
    ensures var inst := call.Inst();
            match call
            case CallWait(t) =>
              inst == Instruction(0x2000_0000 + t / 0x1_0000_0000, t % 0x1_0000_0000) && call.Adds() == t
            case CallSetPhase(i, phase) => inst == Instruction(0x2100_0000 + phase, i) && call.Adds() == 50
            case CallShiftPhase(i, phase) => inst == Instruction(0x2200_0000 + phase, i) && call.Adds() == 50
            case CallReset(i) => inst == Instruction(0x2400_0000, i) && call.Adds() == 50
            case CallTtlAll(value, t) => inst == Instruction(0x2503_ffff + 0x4_0000 * t, value) && call.Adds() == t
            case CallTtl(address, on, t) =>
              inst == Instruction(0x2500_0000 + 0x4_0000 * t + address, if on then 1 else 0) && call.Adds() == t
            case CallCommand(c) =>
              inst == Instruction(c.Control(), c.Operand()) && call.Adds() == Duration(c.Control())
  {
    hide WaitInst, SetPhaseInst, ShiftPhaseInst, ResetInst, TtlAllInst, TtlInst, SimpleCmd.Control, SimpleCmd.Operand;
    hide Duration, SimpleCmd.Length;
    match call
    case CallWait(t) => Instructions.WaitNumber(t);
    case CallSetPhase(i, phase) => PhaseNumbers(i, phase);
    case CallShiftPhase(i, phase) => PhaseNumbers(i, phase);
    case CallReset(i) => PhaseNumbers(i, 0);
    case CallTtlAll(value, t) => TtlNumbers(value, 0, false, t);
    case CallTtl(address, on, t) => TtlNumbers(0, address, on, t);
    case CallCommand(c) => CommandTakesItsLength(c);
  }

  /** The time a call adds is the time its meaning takes. */
  lemma AddsMeantTime(call: Call)
    ensures TimeOf(call.Meant()) == call.Adds()
  {
    if call.CallCommand? { CommandTakesItsLength(call.c); }
  }

  /** No instruction takes 2^56 cycles or more. */
  lemma DecodedTimeBound(inst: Instruction)
    ensures TimeOf(Decode(inst)) < 0x100_0000_0000_0000
  {
  }

  /** The builder's time follows a wait exactly when the wait fits; a longer one loses time. */
  lemma WaitTimeExact(t: u64)
    ensures TimeOf(Decode(WaitInst(t))) == t <==> t < 0x100_0000_0000_0000
  {
    hide Decode, WaitInst;
    WaitRoundTrip(t);
    DecodedTimeBound(WaitInst(t));
  }

  lemma OneMoreInstruction(insts: seq<Instruction>, inst: Instruction)
    ensures TotalTime(DecodeAll(insts + [inst])) == TotalTime(DecodeAll(insts)) + TimeOf(Decode(inst))
  {
    hide Decode, TimeOf;
    var all := DecodeAll(insts + [inst]);
    assert all[..|insts|] == DecodeAll(insts);
  }

  /** When neither sum wraps, the builder's unsigned comparison and difference are the true ones. */
  lemma DtWraps(currT: u64, dt: u64, adds: u64)
    ensures var finalT, nextT := (currT + dt) % LONG, (currT + adds) % LONG;
            && (finalT >= nextT ==> (nextT + (finalT - nextT)) % LONG == finalT)
            && (currT + dt < LONG && currT + adds < LONG ==> (finalT >= nextT <==> adds <= dt))
            && (currT + adds < LONG && finalT >= nextT ==> finalT == currT + dt && finalT - nextT == dt - adds)
  {
  }

  lemma WaitFits(t: u64)
    ensures CallWait(t).Adds() == t && (CallWait(t).Fits() <==> t < 0x100_0000_0000_0000)
  {
  }

  lemma LongAdd(total: nat, n: nat)
    ensures (total % LONG + n) % LONG == (total + n) % LONG
  {
  }

  class BlockBuilder {
    var insts: seq<Instruction>
    var lineNum: nat
    var currT: u64

    constructor ()
      ensures insts == [] && currT == 0 && Exact()
    {
      insts, lineNum, currT := [], 0, 0;
    }

    /** How long the instructions really take. */
    ghost function Takes(): nat
      reads this`insts
    {
      TotalTime(DecodeAll(insts))
    }

    /** The builder's time is the time its instructions take. */
    ghost predicate Exact()
      reads this`insts, this`currT
    {
      currT == Takes() % LONG
    }

    method PushPulse(call: Call)
      modifies this`insts, this`currT
      ensures insts == old(insts) + [call.Inst()] && currT == (old(currT) + call.Adds()) % LONG
      ensures Takes() == old(Takes()) + TimeOf(Decode(call.Inst()))
      ensures call.Fits() ==> Takes() == old(Takes()) + call.Adds() && (old(Exact()) ==> Exact())
    {
      hide Decode, Call.Inst, TimeOf;
      OneMoreInstruction(insts, call.Inst());
      CallRoundTrip(call);
      AddsMeantTime(call);
      if call.Fits() { LongAdd(Takes(), call.Adds()); }
      currT := (currT + call.Adds()) % LONG;
      insts := insts + [call.Inst()];
    }

    /** `pulseAbsT`: an error if the time has passed; else the pulse starts at t or less than 3 cycles before it. */
    method PulseAbsT(t: u64, call: Call) returns (ok: bool)
      modifies this`insts, this`currT
      ensures ok == (t >= old(currT))
      ensures !ok ==> insts == old(insts) && currT == old(currT)
      ensures ok ==> |insts| > |old(insts)| && insts[|insts| - 1] == call.Inst() && old(insts) <= insts
      ensures ok && t - old(currT) < 0x100_0000_0000_0000 ==>
                var start := TotalTime(DecodeAll(insts[..|insts| - 1]));
                var late := t - old(currT);
                && start == old(Takes()) + (if late >= 3 then late else 0)
                && start <= old(Takes()) + late < start + 3
      ensures ok && t - old(currT) < 0x100_0000_0000_0000 && call.Fits() && old(Exact()) ==> Exact()
    {
      hide Decode, Call.Inst, TimeOf, TotalTime;
      if t < currT {
        return false;
      } else if t - currT >= MIN_TIME {
        PushPulse(CallWait(t - currT));
      }
      ghost var before := insts;
      PushPulse(call);
      assert insts[..|insts| - 1] == before;
      ok := true;
    }

    /** `pulseDT`: the pulse and a wait take dt together. If the pulse alone takes longer that is an error; it stays. */
    method PulseDt(dt: u64, call: Call) returns (ok: bool)
      modifies this`insts, this`currT
      ensures !ok ==> insts == old(insts) + [call.Inst()]
      ensures ok ==> |insts| == |old(insts)| + 2 && insts[..|old(insts)| + 1] == old(insts) + [call.Inst()]
      ensures call.Fits() && old(Exact()) && !ok ==> Exact()
      ensures old(currT) + dt < LONG && old(currT) + call.Adds() < LONG ==> ok == (call.Adds() <= dt)
      ensures ok ==> currT == (old(currT) + dt) % LONG
      ensures ok && call.Fits() && dt < 0x100_0000_0000_0000 && old(currT) + call.Adds() < LONG ==>
                Takes() == old(Takes()) + dt && (old(Exact()) ==> Exact())
    {
      hide Decode, DecodeAll, Call.Inst, Call.Adds, TimeOf, TotalTime;
      DtWraps(currT, dt, call.Adds());
      var finalT: u64 := (currT + dt) % LONG;
      PushPulse(call);
      if finalT < currT {
        return false;
      }
      WaitFits(finalT - currT);
      PushPulse(CallWait(finalT - currT));
      ok := true;
    }
  }

  function InstructionsOf(calls: seq<Call>): seq<Instruction> {
    seq(|calls|, k requires 0 <= k < |calls| => calls[k].Inst())
  }

  function Meanings(calls: seq<Call>): seq<Meaning> {
    seq(|calls|, k requires 0 <= k < |calls| => calls[k].Meant())
  }

  /** A built program means what its calls meant. */
  lemma BuiltProgram(calls: seq<Call>)
    requires forall k :: 0 <= k < |calls| ==> calls[k].Fits()
    ensures DecodeAll(InstructionsOf(calls)) == Meanings(calls)
  {
    hide Decode, Call.Inst, Call.Meant;
    forall k | 0 <= k < |calls| ensures Decode(calls[k].Inst()) == calls[k].Meant() {
      CallRoundTrip(calls[k]);
    }
  }

  /**
   From calls to pulses: what is built and run takes effect as the calls meant it, in the time the builder
   counted modulo 2^64 and Min, whatever requests are served in between.
   */
  method BuildAndRun(c: Controller, state: CtrlState, calls: seq<Call>) returns (currT: u64)
    requires c.Valid() && state.Valid()
    requires forall k :: 0 <= k < |calls| ==> calls[k].Fits() && calls[k].Meant().Runnable()
    modifies c`log, c`reqQueue, c`resQueue, c`notifyQueue, c`completed, c`numRead, c`numWritten, c`turn, c`issued,
             c`held, c`releases, state, state.ddsPhases
    ensures c.Valid() && old(c.log) <= c.log && c.held == old(c.held)
    ensures AllRunnable(Meanings(calls))
    ensures var meant := Run(old(Observed(c, state)), Meanings(calls));
            Observed(c, state) == meant.(now := meant.now + MIN_TIME)
    ensures currT == TotalTime(Meanings(calls)) % LONG
    ensures Elapsed(c.log) == old(Elapsed(c.log)) + TotalTime(Meanings(calls)) + MIN_TIME
  {
    hide Decode, Call.Inst, Call.Meant, Call.Fits, Consistent, Run, Elapsed, Pulses;
    ghost var before := Observed(c, state);
    var builder := new BlockBuilder();
    var k := 0;
    while k < |calls|
      invariant 0 <= k <= |calls| && builder.insts == InstructionsOf(calls[..k]) && builder.Exact()
      modifies builder
    {
      builder.PushPulse(calls[k]);
      k := k + 1;
    }
    assert calls[..k] == calls;
    BuiltProgram(calls);
    currT := builder.currT;
    RunTime(before, Meanings(calls));
    RunInstructionList(c, state, builder.insts);
  }
}
