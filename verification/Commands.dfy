/** The words of the pulse controller: their bit layout, the time each takes, and the simple commands. */
module Commands {
  import opened Bits

  const TIMING_CHECK: u32 := 0x0800_0000
  const MIN_TIME: nat := 3
  /** The longest time that fits the time field of a word. */
  const MAX_FIELD: nat := 0xff_ffff
  const DDS_TIME: nat := 50
  const CHANNELS: nat := 22

  /** How many results the FPGA can hold. */
  const MAX_WRITE: nat := 15

  /** How many results or notifications the reader takes at a time. */
  const BUF_SIZE: nat := 32

  const OP_TTL: nat := 0
  const OP_DDS: nat := 1
  const OP_WAIT: nat := 2
  const OP_SPI: nat := 6

  function Opcode(ctrl: u32): nat { ctrl / 0x1000_0000 }

  /** The content of the 24-bit time field. */
  function Field24(ctrl: u32): nat { ctrl % 0x100_0000 }

  /** Clock cycles the FPGA spends on a word. Opcodes from 7 up are not used by the source. */
  function Duration(ctrl: u32): nat {
    var o := Opcode(ctrl);
    if o == OP_TTL || o == OP_WAIT then Field24(ctrl)
    else if o == OP_DDS then DDS_TIME
    else if o == OP_SPI then 45
    else if 3 <= o <= 5 then 5
    else 0
  }

  lemma Or32(x: u32, y: u32)
    ensures Or(x, y) < WORD
  {
    Powers();
    OrFits(x, y, 32);
  }

  /** `x | y`, still one word. */
  function Or32Of(x: u32, y: u32): (r: u32)
    ensures r == Or(x, y)
  {
    Or32(x, y);
    Or(x, y)
  }

  lemma AddBit27(c: nat)
    requires c / 0x800_0000 % 2 != 1
    ensures (c + 0x800_0000) / 0x1000_0000 == c / 0x1000_0000
    ensures (c + 0x800_0000) % 0x100_0000 == c % 0x100_0000
  {
  }

  lemma OrTimingCheck(ctrl: u32)
    ensures Or(ctrl, TIMING_CHECK) == if ctrl / 0x800_0000 % 2 == 1 then ctrl else ctrl + 0x800_0000
  {
    Powers();
    OrBit(ctrl, 27);
  }

  /** Asking for a timing check changes neither the opcode nor the time field. */
  lemma TimingCheckKeepsTime(ctrl: u32)
    ensures Or(ctrl, TIMING_CHECK) < WORD
    ensures Opcode(Or(ctrl, TIMING_CHECK)) == Opcode(ctrl)
    ensures Field24(Or(ctrl, TIMING_CHECK)) == Field24(ctrl)
  {
    Or32(ctrl, TIMING_CHECK);
    OrTimingCheck(ctrl);
    if ctrl / 0x800_0000 % 2 != 1 { AddBit27(ctrl); }
  }

  lemma FlagsKeepOpcode(ctrl: u32, flags: u32)
    requires flags == 0 || flags == TIMING_CHECK
    ensures Or(ctrl, flags) < WORD && Duration(Or(ctrl, flags)) == Duration(ctrl)
    ensures Opcode(Or(ctrl, flags)) == Opcode(ctrl) && Field24(Or(ctrl, flags)) == Field24(ctrl)
  {
    TimingCheckKeepsTime(ctrl);
    assert Or(ctrl, 0) == ctrl;
  }

  /** `0x20000000 | t` puts t in the time field of a wait word when t fits it. */
  lemma WaitWord(t: nat)
    requires t < 0x100_0000
    ensures Or(0x2000_0000, t) == 0x2000_0000 + t
    ensures Opcode(Or(0x2000_0000, t)) == OP_WAIT && Field24(Or(0x2000_0000, t)) == t
  {
    OrDisjointAt(0x2000_0000, t);
  }

  /** `x << log2(scale)` in one word: what does not fit is lost. */
  function Shifted(x: u32, scale: nat): u32 {
    x * scale % WORD
  }

  /** `x + 1` in one word. */
  function Incremented(x: u32): u32 {
    (x + 1) % WORD
  }

  /** Sub-command, channel and register field of a DDS register access. */
  function RegisterDetail(kind: u32, i: u32, field: u32): u32 {
    Or32Of(Or32Of(kind, Shifted(i, 16)), Shifted(field, 0x200))
  }

  /** A channel that does not reach the upper bits of the opcode. */
  predicate ChannelFits(i: u32) { i % 0x1000_0000 < 0x200_0000 }

  /** A register field that does not reach the upper bits of the opcode. */
  predicate FieldFits(field: nat) { field % 0x80_0000 < 0x10_0000 }

  /** The commands that write one word (commands.h), with any parameters. */
  datatype SimpleCmd =
    | ClockOut(divider: u32)
    | Spi(clkDiv: u8, spiId: u8, data: u32)
    | ClearTimingCheck
    | LoopBack(data: u32)
    | DdsSetFreq(i: u32, ftw: u32)
    | DdsSetTwoBytes(i: u32, addr: u32, data: u32)
    | DdsSetFourBytes(i: u32, addr: u32, data: u32)
    | DdsReset(i: u32)
    | DdsResetSel(mask: u32)
    | DdsSetSel(mask: u32)
    | DdsGetByte(i: u32, addr: u32)
    | DdsGetTwoBytes(i: u32, addr: u32)
    | DdsGetFourBytes(i: u32, addr: u32)
  {
    /** Whether the parameters leave the opcode alone: see CommandTakesItsLength. */
    predicate Valid() {
      match this
      case DdsSetFreq(i, _) => ChannelFits(i)
      case DdsReset(i) => ChannelFits(i)
      case DdsSetTwoBytes(i, _, _) => ChannelFits(i)
      case DdsSetFourBytes(i, _, _) => ChannelFits(i)
      case DdsGetByte(i, addr) => ChannelFits(i) && FieldFits(addr)
      case DdsGetTwoBytes(i, addr) => ChannelFits(i) && FieldFits(addr + 1)
      case DdsGetFourBytes(i, addr) => ChannelFits(i) && FieldFits(addr + 1)
      case _ => true
    }

    /** The control word without its opcode. */
    function Detail(): u32 {
      match this
      case Spi(clkDiv, spiId, _) => Or32Of(spiId % 4 * 0x800, clkDiv)
      case DdsSetFreq(i, _) => Shifted(i, 16)
      case DdsSetTwoBytes(i, addr, _) => RegisterDetail(0x2, i, (addr + 1) % 0x80)
      case DdsSetFourBytes(i, addr, _) => RegisterDetail(0xf, i, (addr + 1) % 0x80)
      case DdsReset(i) => Or32Of(0x4, Shifted(i, 16))
      case DdsResetSel(_) => 0x5
      case DdsSetSel(_) => 0x6
      case DdsGetByte(i, addr) => RegisterDetail(0x3, i, addr)
      case DdsGetTwoBytes(i, addr) => RegisterDetail(0x3, i, Incremented(addr))
      case DdsGetFourBytes(i, addr) => RegisterDetail(0xe, i, Incremented(addr))
      case _ => 0
    }

    function Base(): u32 {
      match this
      case ClockOut(_) => 0x5000_0000
      case Spi(_, _, _) => 0x6000_0000
      case ClearTimingCheck => 0x3000_0000
      case LoopBack(_) => 0x4000_0000
      case _ => 0x1000_0000
    }

    function Control(): u32 {
      Or32Of(Base(), Detail())
    }

    function Operand(): u32 {
      match this
      case ClockOut(divider) => divider % 0x100
      case Spi(_, _, data) => data
      case LoopBack(data) => data
      case DdsSetFreq(_, ftw) => ftw
      case DdsSetTwoBytes(_, _, data) => data % 0x1_0000
      case DdsSetFourBytes(_, _, data) => data
      case DdsResetSel(mask) => mask
      case DdsSetSel(mask) => mask
      case _ => 0
    }

    /** The `length` the source declares for the command. */
    function Length(): nat {
      match this
      case ClockOut(_) => 5
      case Spi(_, _, _) => 45
      case ClearTimingCheck => 5
      case LoopBack(_) => 5
      case _ => DDS_TIME
    }

    predicate HasRes() {
      LoopBack? || DdsGetByte? || DdsGetTwoBytes? || DdsGetFourBytes?
    }
  }

  lemma OpcodeOfOr(x: u32, y: u32)
    ensures Opcode(Or32Of(x, y)) == Or(Opcode(x), Opcode(y))
  {
    hide Or;
    Powers();
    OrShifted(x, y, 28);
    ShiftRightIs(x, 28);
    ShiftRightIs(y, 28);
    ShiftRightIs(Or(x, y), 28);
  }

  lemma OrOne(n: nat)
    ensures Or(1, n) == n - n % 2 + 1
  {
    assert Or(0, n / 2) == n / 2;
  }

  /** A DDS word keeps its opcode, and so its time, exactly when nothing is put above bit 28. */
  lemma DdsWord(detail: u32)
    ensures Duration(Or32Of(0x1000_0000, detail)) == DDS_TIME <==> detail < 0x2000_0000
    ensures detail < 0x2000_0000 ==> Opcode(Or32Of(0x1000_0000, detail)) == OP_DDS
  {
    hide Or;
    OpcodeOfOr(0x1000_0000, detail);
    OrOne(Opcode(detail));
  }

  /** The parts of an or stay below a bit exactly when the or does. */
  lemma OrBelow29(x: u32, y: u32)
    ensures Or32Of(x, y) < 0x2000_0000 <==> x < 0x2000_0000 && y < 0x2000_0000
  {
    hide Or;
    Powers();
    OrAtLeast(x, y);
    if x < 0x2000_0000 && y < 0x2000_0000 { OrFits(x, y, 29); }
  }

  lemma ShiftedIs(x: u32, scale: nat, rest: nat)
    requires scale > 0 && rest > 0 && scale * rest == WORD
    ensures Shifted(x, scale) == x % rest * scale
  {
    var q, r := x / rest, x % rest;
    assert x == q * rest + r;
    assert x * scale == q * WORD + r * scale by {
      assert (q * rest) * scale == q * (scale * rest);
    }
    assert r * scale < WORD by { assert (r + 1) * scale <= rest * scale; }
    DivModUnique(x * scale, WORD, q, r * scale);
  }

  lemma ShiftedBelow29(x: u32)
    ensures Shifted(x, 16) < 0x2000_0000 <==> ChannelFits(x)
    ensures Shifted(x, 0x200) < 0x2000_0000 <==> FieldFits(x)
  {
    ShiftedIs(x, 16, 0x1000_0000);
    ShiftedIs(x, 0x200, 0x80_0000);
  }

  lemma RegisterBelow29(kind: u32, i: u32, field: u32)
    requires kind < 0x10
    ensures RegisterDetail(kind, i, field) < 0x2000_0000 <==> ChannelFits(i) && FieldFits(field)
  {
    hide Or, Shifted, ChannelFits, FieldFits;
    OrBelow29(Or32Of(kind, Shifted(i, 16)), Shifted(field, 0x200));
    OrBelow29(kind, Shifted(i, 16));
    ShiftedBelow29(i);
    ShiftedBelow29(field);
  }

  lemma NextField(addr: u32)
    ensures FieldFits(Incremented(addr)) <==> FieldFits(addr + 1)
    ensures FieldFits((addr + 1) % 0x80)
  {
  }

  lemma DdsDetail(c: SimpleCmd)
    requires c.Base() == 0x1000_0000
    ensures c.Detail() < 0x2000_0000 <==> c.Valid()
  {
    hide Or, Or32Of, RegisterDetail, Shifted, Incremented, ChannelFits, FieldFits;
    match c
    case DdsSetFreq(i, _) => ShiftedBelow29(i);
    case DdsReset(i) => OrBelow29(0x4, Shifted(i, 16)); ShiftedBelow29(i);
    case DdsSetTwoBytes(i, addr, _) => NextField(addr); RegisterBelow29(0x2, i, (addr + 1) % 0x80);
    case DdsSetFourBytes(i, addr, _) => NextField(addr); RegisterBelow29(0xf, i, (addr + 1) % 0x80);
    case DdsGetByte(i, addr) => RegisterBelow29(0x3, i, addr);
    case DdsGetTwoBytes(i, addr) => NextField(addr); RegisterBelow29(0x3, i, Incremented(addr));
    case DdsGetFourBytes(i, addr) => NextField(addr); RegisterBelow29(0xe, i, Incremented(addr));
    case _ =>
  }

  lemma SpiWord(clkDiv: u8, spiId: u8)
    ensures Opcode(Or32Of(0x6000_0000, Or32Of(spiId % 4 * 0x800, clkDiv))) == OP_SPI
  {
    hide Or;
    Powers();
    OrFits(spiId % 4 * 0x800, clkDiv, 28);
    OrDisjointAt(0x6000_0000, Or32Of(spiId % 4 * 0x800, clkDiv));
  }

  /**
   For any parameters a command takes the FPGA the length it declares if and only if they leave its opcode alone, as
   all channels below 2^25 and register addresses below 2^20 - 1 do. It then is no wait and takes at most one DDS slot.
   */
  lemma CommandTakesItsLength(c: SimpleCmd)
    ensures Duration(c.Control()) == c.Length() <==> c.Valid()
    ensures c.Length() <= DDS_TIME
    ensures c.Valid() ==> Opcode(c.Control()) != OP_WAIT
  {
    if c.Base() == 0x1000_0000 {
      hide Or32Of, SimpleCmd.Detail, SimpleCmd.Valid, Duration;
      DdsDetail(c);
      DdsWord(c.Detail());
    } else if c.Spi? {
      hide Or;
      SpiWord(c.clkDiv, c.spiId);
    } else {
      assert Or(c.Base(), 0) == c.Base();
    }
  }

  // The words of the commands, as numbers

  lemma LowOr(low: nat, high: nat)
    ensures low < 0x10 && high % 0x10 == 0 ==> Or(low, high) == low + high
    ensures low < 0x200 && high % 0x200 == 0 ==> Or(low, high) == low + high
  {
    hide Or;
    Powers();
    OrCommutes(low, high);
    if low < 0x10 && high % 0x10 == 0 { OrDisjoint(high, low, 4); }
    if low < 0x200 && high % 0x200 == 0 { OrDisjoint(high, low, 9); }
  }

  lemma ShiftedSmall(x: u32)
    requires x < 0x80
    ensures Shifted(x, 16) == 0x10 * x && Shifted(x, 0x200) == 0x200 * x
  {
  }

  /** Sub-command, channel and register field do not meet. */
  lemma DetailNumber(kind: u32, i: u32, field: u32)
    requires kind < 0x10 && i < 0x20 && field < 0x80
    ensures Or32Of(kind, Shifted(i, 16)) == kind + 0x10 * i
    ensures RegisterDetail(kind, i, field) == kind + 0x10 * i + 0x200 * field
  {
    hide Or, Shifted;
    ShiftedSmall(i);
    ShiftedSmall(field);
    LowOr(kind, 0x10 * i);
    LowOr(kind + 0x10 * i, 0x200 * field);
  }

  lemma WithBase(base: u32, detail: u32)
    requires base % 0x1000_0000 == 0 && detail < 0x1000_0000
    ensures Or32Of(base, detail) == base + detail
  {
    hide Or;
    OrDisjointAt(base, detail);
  }

  lemma ChannelWord(kind: u32, i: u32)
    requires kind < 0x10 && i < 0x20
    ensures Or32Of(0x1000_0000, Or32Of(kind, Shifted(i, 16))) == 0x1000_0000 + kind + 0x10 * i
    ensures Or32Of(0x1000_0000, Shifted(i, 16)) == 0x1000_0000 + 0x10 * i
  {
    hide Or32Of, Or, Shifted, RegisterDetail;
    DetailNumber(kind, i, 0);
    ShiftedSmall(i);
    WithBase(0x1000_0000, kind + 0x10 * i);
    WithBase(0x1000_0000, 0x10 * i);
  }

  lemma RegisterWord(kind: u32, i: u32, field: u32)
    requires kind < 0x10 && i < 0x20 && field < 0x80
    ensures Or32Of(0x1000_0000, RegisterDetail(kind, i, field)) == 0x1000_0000 + kind + 0x10 * i + 0x200 * field
  {
    hide Or32Of, Or, RegisterDetail, Shifted;
    DetailNumber(kind, i, field);
    WithBase(0x1000_0000, kind + 0x10 * i + 0x200 * field);
  }

  /** The words of the commands that set a register, for channels below 32 and any address. */
  lemma SetWords(i: u32, addr: u32, data: u32)
    requires i < 0x20
    ensures DdsSetTwoBytes(i, addr, data).Control() == 0x1000_0002 + 0x10 * i + 0x200 * ((addr + 1) % 0x80)
    ensures DdsSetTwoBytes(i, addr, data).Operand() == data % 0x1_0000
    ensures DdsSetFourBytes(i, addr, data).Control() == 0x1000_000f + 0x10 * i + 0x200 * ((addr + 1) % 0x80)
    ensures DdsSetFourBytes(i, addr, data).Operand() == data
    ensures !DdsSetTwoBytes(i, addr, data).HasRes() && !DdsSetFourBytes(i, addr, data).HasRes()
  {
    hide Or, Or32Of, RegisterDetail;
    RegisterWord(0x2, i, (addr + 1) % 0x80);
    RegisterWord(0xf, i, (addr + 1) % 0x80);
  }

  lemma IncrementedIs(x: u32)
    ensures x < WORD - 1 ==> Incremented(x) == x + 1
  {
  }

  lemma GetDetails(i: u32, addr: u32)
    ensures DdsGetTwoBytes(i, addr).Detail() == RegisterDetail(0x3, i, Incremented(addr))
    ensures DdsGetFourBytes(i, addr).Detail() == RegisterDetail(0xe, i, Incremented(addr))
  {
    hide Or, RegisterDetail, Incremented, Shifted, Or32Of;
  }

  lemma GetTwoWord(i: u32, addr: u32, field: u32)
    requires i < 0x20 && field == addr + 1 < 0x80
    ensures DdsGetTwoBytes(i, addr).Control() == 0x1000_0003 + 0x10 * i + 0x200 * field
  {
    hide Or, Or32Of, RegisterDetail, Incremented, SimpleCmd.Detail;
    RegisterWord(0x3, i, field);
    IncrementedIs(addr);
    GetDetails(i, addr);
  }

  lemma GetFourWord(i: u32, addr: u32, field: u32)
    requires i < 0x20 && field == addr + 1 < 0x80
    ensures DdsGetFourBytes(i, addr).Control() == 0x1000_000e + 0x10 * i + 0x200 * field
  {
    hide Or, Or32Of, RegisterDetail, Incremented, SimpleCmd.Detail;
    RegisterWord(0xe, i, field);
    IncrementedIs(addr);
    GetDetails(i, addr);
  }

  /** The words of the commands that read a register, for channels below 32 and fields that fit 7 bits. */
  lemma GetWords(i: u32, addr: u32)
    requires i < 0x20 && addr + 1 < 0x80
    ensures DdsGetByte(i, addr).Control() == 0x1000_0003 + 0x10 * i + 0x200 * addr
    ensures DdsGetTwoBytes(i, addr).Control() == 0x1000_0003 + 0x10 * i + 0x200 * (addr + 1)
    ensures DdsGetFourBytes(i, addr).Control() == 0x1000_000e + 0x10 * i + 0x200 * (addr + 1)
    ensures DdsGetByte(i, addr).Operand() == 0 && DdsGetTwoBytes(i, addr).Operand() == 0
    ensures DdsGetFourBytes(i, addr).Operand() == 0
    ensures DdsGetByte(i, addr).HasRes() && DdsGetTwoBytes(i, addr).HasRes() && DdsGetFourBytes(i, addr).HasRes()
  {
    hide Or, Or32Of, RegisterDetail;
    RegisterWord(0x3, i, addr);
    assert DdsGetByte(i, addr).Control() == 0x1000_0003 + 0x10 * i + 0x200 * addr;
    hide SimpleCmd.Control;
    GetTwoWord(i, addr, addr + 1);
    GetFourWord(i, addr, addr + 1);
  }

  /** The words of the other DDS commands, for channels below 32. */
  lemma ChannelWords(i: u32, data: u32)
    requires i < 0x20
    ensures DdsSetFreq(i, data).Control() == 0x1000_0000 + 0x10 * i && DdsSetFreq(i, data).Operand() == data
    ensures DdsReset(i).Control() == 0x1000_0004 + 0x10 * i && DdsReset(i).Operand() == 0
    ensures DdsResetSel(data).Control() == 0x1000_0005 && DdsResetSel(data).Operand() == data
    ensures DdsSetSel(data).Control() == 0x1000_0006 && DdsSetSel(data).Operand() == data
    ensures !DdsSetFreq(i, data).HasRes() && !DdsReset(i).HasRes()
    ensures !DdsResetSel(data).HasRes() && !DdsSetSel(data).HasRes()
  {
    hide Or, Or32Of, Shifted;
    ChannelWord(0x4, i);
    WithBase(0x1000_0000, 0x5);
    WithBase(0x1000_0000, 0x6);
  }

  /** The words of the other commands. */
  lemma OtherWords(divider: u32, clkDiv: u8, spiId: u8, data: u32)
    ensures ClockOut(divider).Control() == 0x5000_0000 && ClockOut(divider).Operand() == divider % 0x100
    ensures Spi(clkDiv, spiId, data).Control() == 0x6000_0000 + 0x800 * (spiId % 4) + clkDiv
    ensures Spi(clkDiv, spiId, data).Operand() == data
    ensures ClearTimingCheck.Control() == 0x3000_0000 && ClearTimingCheck.Operand() == 0
    ensures LoopBack(data).Control() == 0x4000_0000 && LoopBack(data).Operand() == data
    ensures LoopBack(data).HasRes() && !ClockOut(divider).HasRes() && !ClearTimingCheck.HasRes()
    ensures !Spi(clkDiv, spiId, data).HasRes()
  {
    hide Or;
    Powers();
    assert Or(spiId % 4 * 0x800, clkDiv) == spiId % 4 * 0x800 + clkDiv by {
      assert Pow2(11) == 0x800 by { assert Pow2(10) == 4 * Pow2(8); }
      OrDisjoint(spiId % 4 * 0x800, clkDiv, 11);
    }
    WithBase(0x6000_0000, 0x800 * (spiId % 4) + clkDiv);
    WithBase(0x5000_0000, 0);
    WithBase(0x3000_0000, 0);
    WithBase(0x4000_0000, 0);
  }

  /** The time of a word, by its top four bits. */
  lemma WordTimes(ctrl: u32)
    ensures ctrl < 0x1000_0000 || 0x2000_0000 <= ctrl < 0x3000_0000 ==> Duration(ctrl) == ctrl % 0x100_0000
    ensures 0x1000_0000 <= ctrl < 0x2000_0000 ==> Duration(ctrl) == 50
    ensures 0x3000_0000 <= ctrl < 0x6000_0000 ==> Duration(ctrl) == 5
    ensures 0x6000_0000 <= ctrl < 0x7000_0000 ==> Duration(ctrl) == 45
  {
  }

  type Cmd = c: SimpleCmd | c.Valid() witness ClearTimingCheck
}
