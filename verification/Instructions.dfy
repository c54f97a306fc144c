/** Instruction words (instruction.h): the encoders, and what a word pair means to the runner. */
module Instructions {
  import opened Bits
  import opened Commands

  datatype Instruction = Instruction(ctrl: u32, op: u32)

  const INST_MASK: u32 := 0xf000_0000
  const META_CMD: u32 := 0x2000_0000
  const META_INST_MASK: u32 := 0x0f00_0000
  const WAIT_META: u32 := 0x000_0000
  const SET_PHASE_META: u32 := 0x100_0000
  const SHIFT_PHASE_META: u32 := 0x200_0000
  const RESET_META: u32 := 0x400_0000
  const TTL_META: u32 := 0x500_0000
  const TTL_ALL: u32 := 0x3_ffff
  const META_CONTENT_MASK: u32 := 0x00ff_ffff

  /** What one instruction asks for. */
  datatype Meaning =
    | Wait(t: nat)
    | SetPhase(channel: nat, phase: u16)
    | ShiftPhase(channel: nat, phase: u16)
    | ResetDds(channel: nat)
    | TtlAll(value: u32, time: nat)
    | TtlBit(bit: nat, on: bool, time: nat)
    | Plain(ctrl: u32, op: u32)
    | Ignored
  {
    /** The runner indexes its phases by channel and shifts by bit; a TTL time has 6 bits; no plain word is a wait. */
    predicate Runnable() {
      match this
      case SetPhase(channel, _) => channel < CHANNELS
      case ShiftPhase(channel, _) => channel < CHANNELS
      case ResetDds(channel) => channel < CHANNELS
      case TtlAll(_, time) => time < 64
      case TtlBit(bit, _, time) => bit < 32 && time < 64
      case Plain(ctrl, _) => Opcode(ctrl) != OP_WAIT
      case _ => true
    }
  }

  /** The fields of a word pair, by position. */
  function Decode(inst: Instruction): Meaning {
    var kind, content := inst.ctrl / 0x100_0000 % 16, inst.ctrl % 0x100_0000;
    if Opcode(inst.ctrl) != 2 then Plain(inst.ctrl, inst.op)
    else if kind == 0 then Wait(content * WORD + inst.op)
    else if kind == 1 then SetPhase(inst.op, inst.ctrl % 0x1_0000)
    else if kind == 2 then ShiftPhase(inst.op, inst.ctrl % 0x1_0000)
    else if kind == 4 then ResetDds(inst.op)
    else if kind == 5 then
      var address, time := content % 0x4_0000, content / 0x4_0000;
      if address == 0x3_ffff then TtlAll(inst.op, time) else TtlBit(address % 0x100, inst.op != 0, time)
    else Ignored
  }

  // The encoders, with the source's bit operations.

  function Meta(kind: u32, content: u32): (ctrl: u32)
  {
    Or32Of(Or32Of(META_CMD, kind), content)
  }

  function WaitInst(t: u64): Instruction {
    Instruction(Meta(WAIT_META, t / WORD), t % WORD)
  }

  function SetPhaseInst(i: u32, phase: u16): Instruction {
    Instruction(Meta(SET_PHASE_META, phase), i)
  }

  function ShiftPhaseInst(i: u32, phase: u16): Instruction {
    Instruction(Meta(SHIFT_PHASE_META, phase), i)
  }

  function ResetInst(i: u32): Instruction {
    Instruction(Or32Of(META_CMD, RESET_META), i)
  }

  function TtlAllInst(value: u32, t: u8): Instruction {
    Instruction(Or32Of(Meta(TTL_META, TTL_ALL), t * 0x4_0000), value)
  }

  function TtlInst(address: u8, on: bool, t: u8): Instruction {
    Instruction(Or32Of(Meta(TTL_META, address), t * 0x4_0000), if on then 1 else 0)
  }

  function CommandInst(c: Cmd): Instruction {
    Instruction(c.Control(), c.Operand())
  }

  lemma MetaSum(kind: u32, content: u32)
    requires kind % 0x100_0000 == 0 && kind < 0x1000_0000 && content < 0x100_0000
    ensures Or(META_CMD, kind) == META_CMD + kind
    ensures Meta(kind, content) == META_CMD + kind + content
  {
    hide Or;
    OrDisjointAt(META_CMD, kind);
    OrDisjointAt(META_CMD + kind, content);
  }

  lemma MetaFields(k: nat, content: nat)
    requires k < 16 && content < 0x100_0000
    ensures var ctrl := META_CMD + k * 0x100_0000 + content;
            ctrl / 0x1000_0000 == 2 && ctrl / 0x100_0000 % 16 == k && ctrl % 0x100_0000 == content
  {
  }

  /** The fields of a meta instruction come back. */
  lemma MetaDecodes(k: nat, content: nat, op: u32)
    requires k < 16 && content < 0x100_0000
    ensures Meta(k * 0x100_0000, content) == META_CMD + k * 0x100_0000 + content
    ensures Opcode(Meta(k * 0x100_0000, content)) == 2
    ensures Meta(k * 0x100_0000, content) / 0x100_0000 % 16 == k
    ensures Meta(k * 0x100_0000, content) % 0x100_0000 == content
  {
    hide Or;
    MetaSum(k * 0x100_0000, content);
    MetaFields(k, content);
  }

  /** A wait survives encoding exactly when its length fits 56 bits. */
  lemma WaitRoundTrip(t: u64)
    ensures Decode(WaitInst(t)) == Wait(t) <==> t < 0x100_0000_0000_0000
  {
    hide Or, Meta;
    if t < 0x100_0000_0000_0000 {
      MetaDecodes(0, t / WORD, t % WORD);
    }
  }

  lemma SetPhaseRoundTrip(i: u32, phase: u16)
    ensures Decode(SetPhaseInst(i, phase)) == SetPhase(i, phase)
  {
    hide Or, Meta;
    MetaDecodes(1, phase, i);
  }

  lemma ShiftPhaseRoundTrip(i: u32, phase: u16)
    ensures Decode(ShiftPhaseInst(i, phase)) == ShiftPhase(i, phase)
  {
    hide Or, Meta;
    MetaDecodes(2, phase, i);
  }

  lemma ResetRoundTrip(i: u32)
    ensures Decode(ResetInst(i)) == ResetDds(i)
  {
    hide Or;
    MetaSum(RESET_META, 0);
    MetaFields(4, 0);
  }

  /** Fields above, at and below bit 18 do not meet. */
  lemma OrSplit(head: nat, middle: nat, low: nat)
    requires head % 0x100_0000 == 0 && middle % 0x4_0000 == 0 && middle < 0x100_0000 && low < 0x4_0000
    ensures Or(head + low, middle) == head + middle + low
  {
    hide Or;
    assert Or(head, low) == head + low by { OrDisjointAt(head, low); }
    assert Or(low, middle) == middle + low by { OrCommutes(low, middle); OrDisjointAt(middle, low); }
    assert Or(head, middle + low) == head + (middle + low) by { OrDisjointAt(head, middle + low); }
    OrAssociates(head, low, middle);
  }

  lemma TtlDecodes(address: nat, t: nat)
    requires address < 0x4_0000 && t < 64
    ensures var ctrl := Or(Meta(TTL_META, address), t * 0x4_0000);
            && ctrl / 0x1000_0000 == 2 && ctrl / 0x100_0000 % 16 == 5
            && ctrl % 0x100_0000 / 0x4_0000 == t && ctrl % 0x100_0000 % 0x4_0000 == address
  {
    hide Or;
    MetaSum(TTL_META, address);
    OrSplit(META_CMD + TTL_META, t * 0x4_0000, address);
    MetaFields(5, t * 0x4_0000 + address);
  }

  /** A TTL instruction survives encoding exactly when its time fits 6 bits. */
  lemma TtlAllRoundTrip(value: u32, t: u8)
    ensures Decode(TtlAllInst(value, t)) == TtlAll(value, t) <==> t < 64
  {
    hide Or, Meta;
    if t < 64 { TtlDecodes(TTL_ALL, t); }
  }

  lemma TtlRoundTrip(address: u8, on: bool, t: u8)
    ensures Decode(TtlInst(address, on, t)) == TtlBit(address, on, t) <==> t < 64
  {
    hide Or, Meta;
    if t < 64 { TtlDecodes(address, t); }
  }

  lemma CommandRoundTrip(c: Cmd)
    ensures Decode(CommandInst(c)) == Plain(c.Control(), c.Operand())
  {
    CommandTakesItsLength(c);
  }

  // The instruction words, as numbers

  lemma WaitNumber(t: u64)
    requires t < 0x100_0000_0000_0000
    ensures WaitInst(t) == Instruction(0x2000_0000 + t / 0x1_0000_0000, t % 0x1_0000_0000)
  {
    hide Or, Meta;
    MetaDecodes(0, t / WORD, 0);
  }

  lemma PhaseNumbers(i: u32, phase: u16)
    ensures SetPhaseInst(i, phase) == Instruction(0x2100_0000 + phase, i)
    ensures ShiftPhaseInst(i, phase) == Instruction(0x2200_0000 + phase, i)
    ensures ResetInst(i) == Instruction(0x2400_0000, i)
  {
    hide Or, Meta;
    MetaDecodes(1, phase, i);
    MetaDecodes(2, phase, i);
    MetaSum(RESET_META, 0);
  }

  lemma TtlNumbers(value: u32, address: u8, on: bool, t: u8)
    requires t < 64
    ensures TtlAllInst(value, t) == Instruction(0x2503_ffff + 0x4_0000 * t, value)
    ensures TtlInst(address, on, t) == Instruction(0x2500_0000 + 0x4_0000 * t + address, if on then 1 else 0)
  {
    hide Or;
    MetaSum(TTL_META, TTL_ALL);
    OrSplit(META_CMD + TTL_META, t * 0x4_0000, TTL_ALL);
    MetaSum(TTL_META, address);
    OrSplit(META_CMD + TTL_META, t * 0x4_0000, address);
  }

  /** Meta words of any other kind are ignored. */
  lemma OtherKinds(inst: Instruction)
    requires 0x2300_0000 <= inst.ctrl < 0x2400_0000 || 0x2600_0000 <= inst.ctrl < 0x3000_0000
    ensures Decode(inst) == Ignored
  {
  }
}
