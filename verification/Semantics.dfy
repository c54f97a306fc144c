/**
 What a program means, with no requests in the picture: the pulses it makes, when, and the phase
 and TTL state they carry.
 */
module Semantics {
  import opened Bits
  import opened Commands
  import opened Fpga
  import opened Instructions

  /** A word with the timing check asked for. */
  function Checked(ctrl: u32): u32 {
    Or32Of(ctrl, TIMING_CHECK)
  }

  lemma BitAdded(x: nat)
    ensures (x + 0x800_0000) / 0x800_0000 == x / 0x800_0000 + 1
  {
  }

  /** The timing check is bit 27. */
  lemma CheckedNumber(ctrl: u32)
    ensures Checked(ctrl) == if ctrl / 0x800_0000 % 2 == 1 then ctrl else ctrl + 0x800_0000
    ensures Checked(ctrl) / 0x800_0000 % 2 == 1
  {
    hide Or;
    OrTimingCheck(ctrl);
    if ctrl / 0x800_0000 % 2 != 1 { BitAdded(ctrl); }
  }

  lemma SetBitFits32(x: u32, b: nat, v: bool)
    requires b < 32
    ensures SetBit(x, b, v) < WORD
  {
    Powers();
    SetBitFits(x, b, v, 32);
  }

  function SetTtlBit(ttl: u32, bit: nat, on: bool): u32
    requires bit < 32
  {
    SetBitFits32(ttl, bit, on);
    SetBit(ttl, bit, on)
  }

  datatype Machine = Machine(phases: seq<u16>, ttl: u32, now: nat, pulses: seq<Pulse>) {
    predicate Valid() { |phases| == CHANNELS }

    function Emit(ctrl: u32, op: u32): Machine {
      this.(now := now + Duration(ctrl), pulses := pulses + [Pulse(now, Checked(ctrl), op)])
    }

    function SetPhase(channel: nat, phase: u16): Machine
      requires Valid() && channel < CHANNELS
    {
      this.(phases := phases[channel := phase]).Emit(DdsSetTwoBytes(channel, 0x30, phase).Control(), phase)
    }

    function SetTtl(value: u32, time: nat): Machine
      requires time < 64
    {
      this.(ttl := value).Emit(time, value)
    }

    function Step(i: Meaning): (m: Machine)
      requires Valid() && i.Runnable()
      ensures m.Valid()
    {
      match i
      case Wait(t) => this.(now := now + t)
      case SetPhase(channel, phase) => SetPhase(channel, phase)
      case ShiftPhase(channel, phase) => SetPhase(channel, (phases[channel] + phase) % 0x1_0000)
      case ResetDds(channel) => this.(phases := phases[channel := 0]).Emit(DdsReset(channel).Control(), 0)
      case TtlAll(value, time) => SetTtl(value, time)
      case TtlBit(bit, on, time) => SetTtl(SetTtlBit(ttl, bit, on), time)
      case Plain(ctrl, op) => Emit(ctrl, op)
      case Ignored => this
    }
  }

  ghost predicate AllRunnable(program: seq<Meaning>) {
    forall k :: 0 <= k < |program| ==> program[k].Runnable()
  }

  ghost function Run(m: Machine, program: seq<Meaning>): (r: Machine)
    requires m.Valid() && AllRunnable(program)
    ensures r.Valid()
  {
    if program == [] then m else Run(m, program[..|program| - 1]).Step(program[|program| - 1])
  }
}
