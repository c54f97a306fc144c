/** What a program does to the phases, the TTL lines, the clock and the request opportunities, over its whole run. */
module Tracking {
  import opened Bits
  import opened Commands
  import opened Fpga
  import opened Instructions
  import opened Semantics
  import opened Runner

  // Time

  function TimeOf(i: Meaning): nat {
    match i
    case Wait(t) => t
    case SetPhase(_, _) => DDS_TIME
    case ShiftPhase(_, _) => DDS_TIME
    case ResetDds(_) => DDS_TIME
    case TtlAll(_, time) => time
    case TtlBit(_, _, time) => time
    case Plain(ctrl, _) => Duration(ctrl)
    case Ignored => 0
  }

  function TotalTime(program: seq<Meaning>): nat {
    if program == [] then 0 else TotalTime(program[..|program| - 1]) + TimeOf(program[|program| - 1])
  }

  lemma StepTime(m: Machine, i: Meaning)
    requires m.Valid() && i.Runnable()
    ensures m.Step(i).now == m.now + TimeOf(i)
    ensures m.pulses <= m.Step(i).pulses
  {
    hide Or, Checked, SimpleCmd.Control;
    match i
    case SetPhase(channel, phase) =>
      CommandTakesItsLength(DdsSetTwoBytes(channel, 0x30, phase));
      hide Duration;
    case ShiftPhase(channel, phase) =>
      CommandTakesItsLength(DdsSetTwoBytes(channel, 0x30, (m.phases[channel] + phase) % 0x1_0000));
      hide Duration;
    case ResetDds(channel) =>
      CommandTakesItsLength(DdsReset(channel));
      hide Duration;
    case _ =>
  }

  /** A program takes the sum of its instructions' times. */
  lemma {:induction false} RunTime(m: Machine, program: seq<Meaning>)
    requires m.Valid() && AllRunnable(program)
    ensures Run(m, program).now == m.now + TotalTime(program)
  {
    if program == [] {
    } else {
      var front, last := program[..|program| - 1], program[|program| - 1];
      RunTime(m, front);
      StepTime(Run(m, front), last);
    }
  }

  lemma {:induction false} PulsesGrow(m: Machine, program: seq<Meaning>, j: nat)
    requires m.Valid() && AllRunnable(program) && j <= |program|
    ensures Run(m, program[..j]).pulses <= Run(m, program).pulses
    decreases |program| - j
  {
    if j == |program| {
      assert program[..j] == program;
    } else {
      PulsesGrow(m, program, j + 1);
      assert program[..j + 1][..j] == program[..j];
      StepTime(Run(m, program[..j]), program[j]);
    }
  }

  lemma RunNext(m: Machine, program: seq<Meaning>, j: nat)
    requires m.Valid() && AllRunnable(program) && j < |program|
    ensures Run(m, program[..j + 1]) == Run(m, program[..j]).Step(program[j])
  {
    assert program[..j + 1][..j] == program[..j];
  }

  /** A pulse that one instruction makes is in the final pulses, behind those of the instructions before it. */
  lemma PulseOf(m: Machine, program: seq<Meaning>, j: nat, before: Machine, p: Pulse)
    requires m.Valid() && AllRunnable(program) && j < |program|
    requires before == Run(m, program[..j]) && before.Step(program[j]).pulses == before.pulses + [p]
    ensures var pulses := Run(m, program).pulses; |before.pulses| < |pulses| && pulses[|before.pulses|] == p
  {
    hide Run, Machine.Step;
    RunNext(m, program, j);
    PulsesGrow(m, program, j + 1);
  }

  // Phases

  predicate SetsPhase(i: Meaning, channel: nat) {
    (i.SetPhase? || i.ResetDds?) && i.channel == channel
  }

  /** The phase a set or reset leaves. */
  function SetTo(i: Meaning): u16 {
    if i.SetPhase? then i.phase else 0
  }

  function ShiftSum(program: seq<Meaning>, channel: nat): nat {
    if program == [] then 0
    else
      var last := program[|program| - 1];
      ShiftSum(program[..|program| - 1], channel) +
      if last.ShiftPhase? && last.channel == channel then last.phase else 0
  }

  /** Instructions before start set the channel to base, and none from start on sets it. */
  ghost predicate SetBefore(program: seq<Meaning>, channel: nat, initial: u16, start: nat, base: u16) {
    && start <= |program|
    && (forall k :: start <= k < |program| ==> !SetsPhase(program[k], channel))
    && (if start == 0 then base == initial
        else SetsPhase(program[start - 1], channel) && base == SetTo(program[start - 1]))
  }

  lemma StepPhase(m: Machine, i: Meaning, channel: nat)
    requires m.Valid() && i.Runnable() && channel < CHANNELS
    ensures m.Step(i).phases[channel] ==
            if SetsPhase(i, channel) then SetTo(i)
            else if i.ShiftPhase? && i.channel == channel then (m.phases[channel] + i.phase) % 0x1_0000
            else m.phases[channel]
  {
    hide Or, Checked, Duration;
  }

  lemma ShiftSumNext(program: seq<Meaning>, channel: nat, start: nat)
    requires start < |program|
    ensures var last := program[|program| - 1];
            ShiftSum(program[start..], channel) == ShiftSum(program[..|program| - 1][start..], channel) +
              if last.ShiftPhase? && last.channel == channel then last.phase else 0
  {
    var tail := program[start..];
    assert tail[..|tail| - 1] == program[..|program| - 1][start..];
  }

  lemma AddModulo(a: nat, b: nat)
    ensures (a % 0x1_0000 + b) % 0x1_0000 == (a + b) % 0x1_0000
  {
  }

  /** A channel's phase is the last one set (0 after a reset), else the initial one, and all later shifts, mod 2^16. */
  lemma {:induction false} PhaseTracked(m: Machine, program: seq<Meaning>, channel: nat, start: nat, base: u16)
    requires m.Valid() && AllRunnable(program) && channel < CHANNELS
    requires SetBefore(program, channel, m.phases[channel], start, base)
    ensures Run(m, program).phases[channel] == (base + ShiftSum(program[start..], channel)) % 0x1_0000
  {
    hide Machine.Step;
    var n := |program|;
    if n == 0 {
    } else if start < n {
      var front, last := program[..n - 1], program[n - 1];
      assert SetBefore(front, channel, m.phases[channel], start, base);
      PhaseTracked(m, front, channel, start, base);
      StepPhase(Run(m, front), last, channel);
      ShiftSumNext(program, channel, start);
      var shift := if last.ShiftPhase? && last.channel == channel then last.phase else 0;
      AddModulo(base + ShiftSum(front[start..], channel), shift);
    } else {
      assert program[start..] == [];
      StepPhase(Run(m, program[..n - 1]), program[n - 1], channel);
    }
  }

  lemma EmitsPhase(m: Machine, i: Meaning)
    requires m.Valid() && i.Runnable() && (i.SetPhase? || i.ShiftPhase?)
    ensures var phase := m.Step(i).phases[i.channel];
            m.Step(i).pulses ==
            m.pulses + [Pulse(m.now, Checked(DdsSetTwoBytes(i.channel, 0x30, phase).Control()), phase)]
  {
    hide Or, Checked, Duration;
  }

  /** The control word of a phase pulse on a channel. */
  lemma PhaseWord(channel: nat, phase: u16)
    requires channel < CHANNELS
    ensures Checked(DdsSetTwoBytes(channel, 0x30, phase).Control()) == 0x1800_6202 + 0x10 * channel
  {
    hide SimpleCmd.Control, Checked;
    SetWords(channel, 0x30, phase);
    CheckedNumber(0x1000_6202 + 0x10 * channel);
  }

  /** The pulse of a phase instruction: the phase it leaves, at the total time of the instructions before it. */
  lemma PhasePulse(m: Machine, program: seq<Meaning>, j: nat)
    requires m.Valid() && AllRunnable(program) && j < |program|
    requires (program[j].SetPhase? || program[j].ShiftPhase?) && program[j].Runnable()
    ensures var before := Run(m, program[..j]);
            var phase := before.Step(program[j]).phases[program[j].channel];
            var pulses, at := Run(m, program).pulses, |before.pulses|;
            && at < |pulses|
            && pulses[at] == Pulse(m.now + TotalTime(program[..j]), 0x1800_6202 + 0x10 * program[j].channel, phase)
  {
    hide Machine.Step, Run, TotalTime, SimpleCmd.Control, Checked;
    var before, i := Run(m, program[..j]), program[j];
    RunTime(m, program[..j]);
    EmitsPhase(before, i);
    var phase := before.Step(i).phases[i.channel];
    PhaseWord(i.channel, phase);
    PulseOf(m, program, j, before, Pulse(before.now, 0x1800_6202 + 0x10 * i.channel, phase));
  }

  /** Each phase word a program sends carries the tracked phase of its channel at that point. */
  lemma PhaseSent(m: Machine, program: seq<Meaning>, j: nat, start: nat, base: u16)
    requires m.Valid() && AllRunnable(program) && j < |program|
    requires program[j].SetPhase? || program[j].ShiftPhase?
    requires program[j].channel < CHANNELS
    requires SetBefore(program[..j + 1], program[j].channel, m.phases[program[j].channel], start, base)
    ensures var channel := program[j].channel;
            var phase := (base + ShiftSum(program[..j + 1][start..], channel)) % 0x1_0000;
            var pulses, at := Run(m, program).pulses, |Run(m, program[..j]).pulses|;
            && at < |pulses|
            && pulses[at] == Pulse(m.now + TotalTime(program[..j]), 0x1800_6202 + 0x10 * channel, phase)
  {
    hide Machine.Step, Run, ShiftSum, TotalTime, SimpleCmd.Control, Checked, SetBefore;
    assert program[j].Runnable();
    RunNext(m, program, j);
    PhaseTracked(m, program[..j + 1], program[j].channel, start, base);
    PhasePulse(m, program, j);
  }

  // Resets and plain commands

  lemma ResetWord(channel: nat)
    requires channel < CHANNELS
    ensures Checked(DdsReset(channel).Control()) == 0x1800_0004 + 0x10 * channel
  {
    hide SimpleCmd.Control, Checked;
    ChannelWords(channel, 0);
    CheckedNumber(0x1000_0004 + 0x10 * channel);
  }

  lemma EmitsReset(m: Machine, channel: nat)
    requires m.Valid() && channel < CHANNELS
    ensures m.Step(ResetDds(channel)).pulses == m.pulses + [Pulse(m.now, 0x1800_0004 + 0x10 * channel, 0)]
  {
    ResetWord(channel);
    hide Or, Checked, SimpleCmd.Control, Duration;
  }

  lemma EmitsPlain(m: Machine, ctrl: u32, op: u32)
    requires m.Valid() && Opcode(ctrl) != OP_WAIT
    ensures m.Step(Plain(ctrl, op)).pulses == m.pulses + [Pulse(m.now, Checked(ctrl), op)]
  {
    hide Or, Checked, Duration;
  }

  /** Each reset a program sends is the reset word of its channel, at the total time of the instructions before it. */
  lemma ResetSent(m: Machine, program: seq<Meaning>, j: nat)
    requires m.Valid() && AllRunnable(program) && j < |program|
    requires program[j].ResetDds? && program[j].channel < CHANNELS
    ensures var pulses, at := Run(m, program).pulses, |Run(m, program[..j]).pulses|;
            && at < |pulses|
            && pulses[at] == Pulse(m.now + TotalTime(program[..j]), 0x1800_0004 + 0x10 * program[j].channel, 0)
  {
    hide Run, TotalTime, Machine.Step;
    var before, channel := Run(m, program[..j]), program[j].channel;
    RunTime(m, program[..j]);
    EmitsReset(before, channel);
    PulseOf(m, program, j, before, Pulse(before.now, 0x1800_0004 + 0x10 * channel, 0));
  }

  /** Each plain command is sent with its own words and bit 27 set, at the total time of the instructions before it. */
  lemma PlainSent(m: Machine, program: seq<Meaning>, j: nat)
    requires m.Valid() && AllRunnable(program) && j < |program|
    requires program[j].Plain?
    ensures var ctrl, op := program[j].ctrl, program[j].op;
            var pulses, at := Run(m, program).pulses, |Run(m, program[..j]).pulses|;
            && at < |pulses|
            && pulses[at].at == m.now + TotalTime(program[..j]) && pulses[at].op == op
            && pulses[at].ctrl == if ctrl / 0x800_0000 % 2 == 1 then ctrl else ctrl + 0x800_0000
  {
    assert program[j].Runnable();
    hide Run, TotalTime, Machine.Step, Checked;
    var before, ctrl, op := Run(m, program[..j]), program[j].ctrl, program[j].op;
    RunTime(m, program[..j]);
    EmitsPlain(before, ctrl, op);
    CheckedNumber(ctrl);
    PulseOf(m, program, j, before, Pulse(before.now, Checked(ctrl), op));
  }

  /** The instructions that make a pulse: all but waits and ignored ones. */
  ghost function Sounding(program: seq<Meaning>): set<nat> {
    set k: nat | k < |program| && !program[k].Wait? && !program[k].Ignored?
  }

  lemma SoundingNext(program: seq<Meaning>)
    requires program != []
    ensures var n, last := |program| - 1, program[|program| - 1];
            |Sounding(program)| == |Sounding(program[..n])| + if last.Wait? || last.Ignored? then 0 else 1
  {
    var n, last := |program| - 1, program[|program| - 1];
    if last.Wait? || last.Ignored? {
      assert Sounding(program) == Sounding(program[..n]);
    } else {
      assert Sounding(program) == Sounding(program[..n]) + {n};
    }
  }

  /** A program makes one pulse for each instruction that is neither a wait nor ignored, and no others. */
  lemma {:induction false} PulseCount(m: Machine, program: seq<Meaning>)
    requires m.Valid() && AllRunnable(program)
    ensures |Run(m, program).pulses| == |m.pulses| + |Sounding(program)|
  {
    if program == [] {
      assert Sounding(program) == {};
    } else {
      var n := |program| - 1;
      PulseCount(m, program[..n]);
      SoundingNext(program);
      hide Or, Checked, SimpleCmd.Control, Duration, SetTtlBit, Sounding;
    }
  }

  // TTL lines

  predicate SetsLine(i: Meaning, line: nat) {
    i.TtlAll? || (i.TtlBit? && i.bit == line)
  }

  predicate LineTo(i: Meaning, line: nat) {
    if i.TtlAll? then Bit(i.value, line) else i.TtlBit? && i.on
  }

  /** Instructions before start put the line to level, and none from start on touches it. */
  ghost predicate LineBefore(program: seq<Meaning>, line: nat, initial: bool, start: nat, level: bool) {
    && start <= |program|
    && (forall k :: start <= k < |program| ==> !SetsLine(program[k], line))
    && (if start == 0 then level == initial
        else SetsLine(program[start - 1], line) && level == LineTo(program[start - 1], line))
  }

  lemma StepLine(m: Machine, i: Meaning, line: nat)
    requires m.Valid() && i.Runnable()
    ensures Bit(m.Step(i).ttl, line) == if SetsLine(i, line) then LineTo(i, line) else Bit(m.ttl, line)
  {
    if i.TtlBit? { SetBitAt(m.ttl, i.bit, i.on, line); }
  }

  /** A line is at the level of the last instruction that touched it. */
  lemma {:induction false} LineTracked(m: Machine, program: seq<Meaning>, line: nat, start: nat, level: bool)
    requires m.Valid() && AllRunnable(program)
    requires LineBefore(program, line, Bit(m.ttl, line), start, level)
    ensures Bit(Run(m, program).ttl, line) == level
  {
    var n := |program|;
    if n > 0 {
      var front := program[..n - 1];
      StepLine(Run(m, front), program[n - 1], line);
      if start < n {
        assert LineBefore(front, line, Bit(m.ttl, line), start, level);
        LineTracked(m, front, line, start, level);
      }
    }
  }

  lemma EmitsLines(m: Machine, i: Meaning)
    requires m.Valid() && i.Runnable() && (i.TtlAll? || i.TtlBit?)
    ensures m.Step(i).pulses == m.pulses + [Pulse(m.now, Checked(i.time), m.Step(i).ttl)]
  {
    hide Or, Checked, Duration, SetTtlBit;
  }

  /** Each TTL word a program sends carries, on every line, the tracked level at that point. */
  lemma LineSent(m: Machine, program: seq<Meaning>, j: nat, line: nat, start: nat, level: bool)
    requires m.Valid() && AllRunnable(program) && j < |program|
    requires program[j].TtlAll? || program[j].TtlBit?
    requires LineBefore(program[..j + 1], line, Bit(m.ttl, line), start, level)
    ensures var pulses, at := Run(m, program).pulses, |Run(m, program[..j]).pulses|;
            && at < |pulses| && program[j].Runnable()
            && pulses[at].at == m.now + TotalTime(program[..j])
            && pulses[at].ctrl == 0x800_0000 + program[j].time && program[j].time < 64
            && Bit(pulses[at].op, line) == level
  {
    hide Or, Checked, Duration, Machine.Step, Run, TotalTime, Bit;
    var before, i := Run(m, program[..j]), program[j];
    RunNext(m, program, j);
    RunTime(m, program[..j]);
    LineTracked(m, program[..j + 1], line, start, level);
    EmitsLines(before, i);
    CheckedNumber(i.time);
    PulseOf(m, program, j, before, Pulse(before.now, Checked(i.time), before.Step(i).ttl));
  }

  // Opportunities for requests

  /** The wait time after a series of waits. */
  function WaitTimes(waitTime: u64, ts: seq<u64>): u64 {
    if ts == [] then waitTime else WaitTimeAfter(WaitTimes(waitTime, ts[..|ts| - 1]), ts[|ts| - 1])
  }

  /** The total of the waits long enough to count. */
  function Eligible(ts: seq<u64>): nat {
    if ts == [] then 0 else Eligible(ts[..|ts| - 1]) + if ts[|ts| - 1] >= DDS_TIME then ts[|ts| - 1] else 0
  }

  ghost predicate NoOpportunity(waitTime: u64, ts: seq<u64>) {
    forall k :: 0 <= k < |ts| ==> !Opportunity(WaitTimes(waitTime, ts[..k]), ts[k])
  }

  lemma QuietStep(waitTime: u64, t: u64)
    requires waitTime <= MAX_QUIET
    ensures WaitTimeAfter(waitTime, t) <= MAX_QUIET
    ensures !Opportunity(waitTime, t) ==> WaitTimeAfter(waitTime, t) == waitTime + if t >= DDS_TIME then t else 0
  {
  }

  /** The wait time stays bounded, and without an opportunity it is the total of the waits that count. */
  lemma {:induction false} QuietTime(waitTime: u64, ts: seq<u64>)
    requires waitTime <= MAX_QUIET
    ensures WaitTimes(waitTime, ts) <= MAX_QUIET
    ensures NoOpportunity(waitTime, ts) ==> WaitTimes(waitTime, ts) == waitTime + Eligible(ts)
  {
    if ts == [] {
    } else {
      var front, last := ts[..|ts| - 1], ts[|ts| - 1];
      QuietTime(waitTime, front);
      QuietStep(WaitTimes(waitTime, front), last);
      hide Opportunity, WaitTimeAfter;
      if NoOpportunity(waitTime, ts) {
        assert forall k :: 0 <= k < |front| ==> front[..k] == ts[..k];
        assert NoOpportunity(waitTime, front);
      }
    }
  }

  /** Requests do not starve: waits that count for more than 8192 cycles in all include an opportunity. */
  lemma RequestsGetIn(waitTime: u64, ts: seq<u64>)
    requires waitTime <= MAX_QUIET && Eligible(ts) > MAX_QUIET
    ensures exists k :: 0 <= k < |ts| && Opportunity(WaitTimes(waitTime, ts[..k]), ts[k])
  {
    QuietTime(waitTime, ts);
    assert !NoOpportunity(waitTime, ts);
  }
}
