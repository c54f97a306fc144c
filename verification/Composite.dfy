/** Commands made of several (commands.h:337-471), and the two ways to get their result (controller.h:214-254). */
module Composite {
  import opened Bits
  import opened Commands

  function NumRes(cmds: seq<Cmd>): nat {
    if cmds == [] then 0 else (if cmds[0].HasRes() then 1 else 0) + NumRes(cmds[1..])
  }

  /** Positions of the sub-commands that return a result, counted from cur. */
  function ResIndexes(cmds: seq<Cmd>, cur: nat): seq<nat> {
    if cmds == [] then []
    else (if cmds[0].HasRes() then [cur] else []) + ResIndexes(cmds[1..], cur + 1)
  }

  /** What a sub-command makes of its 32-bit result. */
  function ConvertRes(c: Cmd, res: u32): u32 {
    match c
    case DdsGetByte(_, _) => res / 0x100 % 0x100
    case DdsGetTwoBytes(_, _) => res % 0x1_0000
    case _ => res
  }

  /** The results the FPGA puts out while it runs the words: one for each command that has one, in order. */
  function Responses(cmds: seq<Cmd>, answers: seq<u32>): seq<u32>
    requires |answers| == |cmds|
  {
    if cmds == [] then []
    else (if cmds[0].HasRes() then [answers[0]] else []) + Responses(cmds[1..], answers[1..])
  }

  lemma {:induction false} IndexesAreResults(cmds: seq<Cmd>, cur: nat)
    ensures |ResIndexes(cmds, cur)| == NumRes(cmds)
    ensures forall j :: 0 <= j < |ResIndexes(cmds, cur)| ==>
              cur <= ResIndexes(cmds, cur)[j] < cur + |cmds| && cmds[ResIndexes(cmds, cur)[j] - cur].HasRes()
    ensures forall i, j :: 0 <= i < j < |ResIndexes(cmds, cur)| ==> ResIndexes(cmds, cur)[i] < ResIndexes(cmds, cur)[j]
  {
    if cmds == [] {
    } else {
      IndexesAreResults(cmds[1..], cur + 1);
    }
  }

  /** The j-th response is the answer to the command at the j-th result position. */
  lemma {:induction false} ResponsesAreSelected(cmds: seq<Cmd>, answers: seq<u32>, cur: nat)
    requires |answers| == |cmds|
    ensures |Responses(cmds, answers)| == |ResIndexes(cmds, cur)|
    ensures forall j :: 0 <= j < |Responses(cmds, answers)| ==>
              cur <= ResIndexes(cmds, cur)[j] < cur + |cmds|
              && Responses(cmds, answers)[j] == answers[ResIndexes(cmds, cur)[j] - cur]
  {
    if cmds == [] {
    } else {
      ResponsesAreSelected(cmds[1..], answers[1..], cur + 1);
    }
  }

  /** The result of each request when every sub-command is a request of its own: 0 without a result. */
  function RequestResults(cmds: seq<Cmd>, answers: seq<u32>): seq<u32>
    requires |answers| == |cmds|
  {
    seq(|cmds|, i requires 0 <= i < |cmds| => if cmds[i].HasRes() then answers[i] else 0)
  }

  /** The arguments `_reqSyncComposite` passes on: sub-command and result both selected by result position. */
  function ReqSyncArguments(cmds: seq<Cmd>, answers: seq<u32>): seq<u32>
    requires |answers| == |cmds|
  {
    IndexesAreResults(cmds, 0);
    var idx := ResIndexes(cmds, 0);
    seq(|idx|, j requires 0 <= j < |idx| => ConvertRes(cmds[idx[j]], RequestResults(cmds, answers)[idx[j]]))
  }

  /** The arguments `_runComposite` passes on: sub-command selected by result position, result by its number. */
  function RunArguments(cmds: seq<Cmd>, answers: seq<u32>): seq<u32>
    requires |answers| == |cmds|
  {
    IndexesAreResults(cmds, 0);
    ResponsesAreSelected(cmds, answers, 0);
    var idx := ResIndexes(cmds, 0);
    seq(NumRes(cmds), j requires 0 <= j < NumRes(cmds) => ConvertRes(cmds[idx[j]], Responses(cmds, answers)[j]))
  }

  /** Both ways give a composite command the same arguments, and expect as many results as the FPGA puts out. */
  lemma SameAnswerEitherWay(cmds: seq<Cmd>, answers: seq<u32>)
    requires |answers| == |cmds|
    ensures ReqSyncArguments(cmds, answers) == RunArguments(cmds, answers)
    ensures |ResIndexes(cmds, 0)| == NumRes(cmds) == |Responses(cmds, answers)|
  {
    IndexesAreResults(cmds, 0);
    ResponsesAreSelected(cmds, answers, 0);
  }

  /** Every sub-command with a result is among the result indexes. */
  lemma {:induction false} NoResultForgotten(cmds: seq<Cmd>, cur: nat, i: nat)
    requires i < |cmds| && cmds[i].HasRes()
    ensures cur + i in ResIndexes(cmds, cur)
  {
    if i == 0 {
    } else {
      NoResultForgotten(cmds[1..], cur + 1, i - 1);
    }
  }

  lemma Bytes(x: nat, b0: u8, b1: u8, rest: u16)
    requires x == b0 + 0x100 * b1 + 0x1_0000 * rest
    ensures x / 0x100 % 0x100 == b1 && x % 0x1_0000 == b0 + 0x100 * b1
  {
    DivModUnique(x, 0x1_0000, rest, b0 + 0x100 * b1);
    DivModUnique(x, 0x100, b1 + 0x100 * rest, b0);
    DivModUnique(b1 + 0x100 * rest, 0x100, rest, b1);
  }

  /** A one-byte read is the second byte of its answer, and a two-byte read the two lowest. */
  lemma BytesOf(i: u32, addr: u32, b0: u8, b1: u8, rest: u16, res: u32)
    requires ChannelFits(i) && FieldFits(addr) && FieldFits(addr + 1) && res == b0 + 0x100 * b1 + 0x1_0000 * rest
    ensures ConvertRes(DdsGetByte(i, addr), res) == b1 && ConvertRes(DdsGetTwoBytes(i, addr), res) == b0 + 0x100 * b1
  {
    Bytes(res, b0, b1, rest);
    hide ChannelFits, FieldFits;
  }

  // The composite commands of the source.

  function DdsGetFreq(i: u32): seq<Cmd>
    requires ChannelFits(i)
  {
    [DdsGetTwoBytes(i, 0x2c), DdsGetTwoBytes(i, 0x2e)]
  }

  lemma TwoReads(i: u32, a: u32, b: u32)
    requires ChannelFits(i)
    ensures ReqSyncArguments(DdsGetFreq(i), [a, b]) == [a % 0x1_0000, b % 0x1_0000]
  {
    var cmds := DdsGetFreq(i);
    assert cmds[1..] == [DdsGetTwoBytes(i, 0x2e)] && cmds[1..][1..] == [];
    assert ResIndexes(cmds[1..], 1) == [1];
    assert ResIndexes(cmds, 0) == [0, 1];
  }

  lemma JoinHalves(low: u16, high: u16)
    ensures Or(low, high * 0x1_0000) == high * 0x1_0000 + low
  {
    hide Or;
    Powers();
    OrDisjoint(high * 0x1_0000, low, 16);
    OrCommutes(high * 0x1_0000, low);
  }

  /** Whatever the upper halves of the two answers hold, the joined halves are the word whose halves were read. */
  lemma FrequencyReadBack(i: u32, ftw: u32, a: u32, b: u32)
    requires ChannelFits(i)
    requires a % 0x1_0000 == ftw % 0x1_0000 && b % 0x1_0000 == ftw / 0x1_0000
    ensures var args := ReqSyncArguments(DdsGetFreq(i), [a, b]);
            |args| == 2 && Or(args[0], args[1] * 0x1_0000 % WORD) == ftw
  {
    hide Or, ReqSyncArguments;
    TwoReads(i, a, b);
    JoinHalves(a % 0x1_0000, b % 0x1_0000);
  }

  function DdsExists(i: u32): seq<Cmd>
    requires ChannelFits(i)
  {
    [DdsSetTwoBytes(i, 0x68, 0), DdsGetTwoBytes(i, 0x68), DdsSetTwoBytes(i, 0x68, 1), DdsGetTwoBytes(i, 0x68)]
  }

  /** The probe compares the two values read back, not the results of its writes. */
  lemma ProbeReadsBack(i: u32, a: u32, b: u32, x: u32, y: u32)
    requires ChannelFits(i)
    ensures ReqSyncArguments(DdsExists(i), [x, a, y, b]) == [a % 0x1_0000, b % 0x1_0000]
  {
    var cmds := DdsExists(i);
    assert cmds[1..][1..][1..] == [cmds[3]] && cmds[1..][1..] == [cmds[2], cmds[3]] && cmds[3..][1..] == [];
    assert ResIndexes(cmds[1..][1..][1..], 3) == [3];
    assert ResIndexes(cmds[1..][1..], 2) == [3];
    assert ResIndexes(cmds[1..], 1) == [1, 3];
    assert ResIndexes(cmds, 0) == [1, 3];
  }

  /** The DDS answers a two-byte read with the bytes at the address and behind it, and anything above. */
  ghost predicate Answers(regs: nat -> u8, cmd: Cmd, answer: u32) {
    cmd.DdsGetTwoBytes? ==> answer % 0x1_0000 == regs(cmd.addr) + 0x100 * regs(cmd.addr + 1)
  }

  /** The frequency read is the four bytes from address 0x2c on, the lowest first. */
  lemma FrequencyOfRegisters(i: u32, regs: nat -> u8, a: u32, b: u32)
    requires ChannelFits(i) && Answers(regs, DdsGetFreq(i)[0], a) && Answers(regs, DdsGetFreq(i)[1], b)
    ensures var args := ReqSyncArguments(DdsGetFreq(i), [a, b]);
            |args| == 2 && Or(args[0], args[1] * 0x1_0000 % WORD) ==
                           regs(0x2c) + 0x100 * regs(0x2d) + 0x1_0000 * regs(0x2e) + 0x100_0000 * regs(0x2f)
  {
    hide Or, ReqSyncArguments;
    TwoReads(i, a, b);
    JoinHalves(a % 0x1_0000, b % 0x1_0000);
  }

  /** The words of the commands that read a frequency, and of the ones that probe a channel. */
  lemma CompositeWords(i: u32)
    requires i < 0x20
    ensures |DdsGetFreq(i)| == 2 && |DdsExists(i)| == 4
    ensures DdsGetFreq(i)[0].Control() == 0x1000_5a03 + 0x10 * i && DdsGetFreq(i)[1].Control() == 0x1000_5e03 + 0x10 * i
    ensures DdsExists(i)[0].Control() == DdsExists(i)[2].Control() == 0x1000_d202 + 0x10 * i
    ensures DdsExists(i)[1].Control() == DdsExists(i)[3].Control() == 0x1000_d203 + 0x10 * i
    ensures DdsExists(i)[0].Operand() == 0 && DdsExists(i)[2].Operand() == 1
  {
    hide SimpleCmd.Control;
    GetWords(i, 0x2c);
    GetWords(i, 0x2e);
    GetWords(i, 0x68);
    SetWords(i, 0x68, 0);
    SetWords(i, 0x68, 1);
  }
}
