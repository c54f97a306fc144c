/** What a bytecode sequence means with no requests and no clock (instruction.cpp:176-211). */
module Scores {
  import opened Bits
  import opened Commands
  import opened Fpga
  import opened Semantics

  /** What the decoder of a sequence calls. */
  datatype Call =
    | Ttl(ttl: u32, t: u64)
    | DdsFreq(chn: u8, freq: u32)
    | DdsAmp(chn: u8, amp: u16)
    | Dac(chn: u8, v: u16)
    | Clock(period: u8)
    | Delay(t: u64)
  {
    /** The command of a call that is one. */
    function Command(): Cmd {
      match this
      case DdsFreq(chn, freq) => DdsSetFreq(chn, freq)
      case DdsAmp(chn, amp) => DdsSetTwoBytes(chn, 0x32, amp)
      case Dac(chn, v) => Spi(0, 0, Or32Of(chn % 4 * 0x1_0000, v))
      case Clock(period) => ClockOut(period)
      case _ => ClearTimingCheck
    }
  }

  /**
   Pulses and time: each call takes its time from where the last one ended. A wait also takes 2^64 for each time that
   its remaining time wraps.
   */
  datatype Score = Score(now: nat, pulses: seq<Pulse>) {
    function Play(call: Call, preserveTtl: u32, wraps: nat): Score {
      match call
      case Ttl(ttl, t) =>
        Score(now + t + wraps * LONG,
              pulses + [Pulse(now, Checked(if t <= 1000 then t else 100), Or32Of(ttl, preserveTtl))])
      case Delay(t) => Score(now + t + wraps * LONG, pulses)
      case _ =>
        var cmd := call.Command();
        Score(now + cmd.Length(), pulses + [Pulse(now, Checked(cmd.Control()), cmd.Operand())])
    }

    function PlayAll(calls: seq<Call>, preserveTtl: u32, wraps: seq<nat>): Score
      requires |wraps| == |calls|
    {
      if calls == [] then this
      else
        var n := |calls| - 1;
        PlayAll(calls[..n], preserveTtl, wraps[..n]).Play(calls[n], preserveTtl, wraps[n])
    }
  }

  lemma {:induction false} AndAtMost(x: nat, y: nat)
    ensures And(x, y) <= y
  {
    if x == 0 || y == 0 {
    } else {
      AndAtMost(x / 2, y / 2);
    }
  }

  /** The lines to keep up: those that are up now and not under the mask. */
  function PreserveTtl(ttlMask: u32, current: u32): u32 {
    if ttlMask == 0xffff_ffff then 0
    else
      AndAtMost(0xffff_ffff - ttlMask, current);
      And(0xffff_ffff - ttlMask, current)
  }

  lemma PreservedLines(ttlMask: u32, current: u32, line: nat)
    ensures Bit(PreserveTtl(ttlMask, current), line) <==> line < 32 && !Bit(ttlMask, line) && Bit(current, line)
  {
    hide And;
    Powers();
    NotBits(ttlMask, 32, line);
    AndBits(0xffff_ffff - ttlMask, current, line);
    NoBits(line);
  }

  // What is heard, as numbers

  /** How long a call takes if its wait does not wrap. */
  function CallTime(call: Call): nat {
    match call
    case Ttl(_, t) => t
    case DdsFreq(_, _) => 50
    case DdsAmp(_, _) => 50
    case Dac(_, _) => 45
    case Clock(_) => 5
    case Delay(t) => t
  }

  /** Calls that wait. */
  predicate MayWrap(call: Call) { call.Ttl? || call.Delay? }

  /** How long calls take whose waits wrap as often as given. */
  function TimeIn(calls: seq<Call>, wraps: seq<nat>): nat
    requires |wraps| == |calls|
  {
    if calls == [] then 0
    else
      var n := |calls| - 1;
      TimeIn(calls[..n], wraps[..n]) + CallTime(calls[n]) + if MayWrap(calls[n]) then wraps[n] * LONG else 0
  }

  /** How many pulses calls make. */
  function PulsesIn(calls: seq<Call>): nat {
    if calls == [] then 0 else PulsesIn(calls[..|calls| - 1]) + if calls[|calls| - 1].Delay? then 0 else 1
  }

  /**
   The pulse of a call, with the timing check. A TTL pulse has every line up that is set or preserved, and holds it
   for the call's time, or for 100 before a long wait. DDS channels are below 32.
   */
  ghost predicate Sounds(call: Call, preserveTtl: u32, p: Pulse, at: nat) {
    p.at == at &&
    match call
    case Ttl(ttl, t) =>
      && p.ctrl == 0x800_0000 + (if t <= 1000 then t else 100)
      && forall line: nat :: Bit(p.op, line) <==> Bit(ttl, line) || Bit(preserveTtl, line)
    case DdsFreq(chn, freq) => p.op == freq && (chn < 32 ==> p.ctrl == 0x1800_0000 + 0x10 * chn)
    case DdsAmp(chn, amp) => p.op == amp && (chn < 32 ==> p.ctrl == 0x1800_6602 + 0x10 * chn)
    case Dac(chn, v) => p.op == 0x1_0000 * (chn % 4) + v && p.ctrl == 0x6800_0000
    case Clock(period) => p.op == period && p.ctrl == 0x5800_0000
    case Delay(_) => false
  }

  lemma TtlSounds(ttl: u32, t: u64, preserveTtl: u32, at: nat)
    ensures Sounds(Ttl(ttl, t), preserveTtl,
                   Pulse(at, Checked(if t <= 1000 then t else 100), Or32Of(ttl, preserveTtl)), at)
  {
    hide Or, Checked;
    CheckedNumber(if t <= 1000 then t else 100);
    forall line: nat ensures Bit(Or32Of(ttl, preserveTtl), line) <==> Bit(ttl, line) || Bit(preserveTtl, line) {
      OrBits(ttl, preserveTtl, line);
    }
  }

  lemma DacOperand(chn: u8, v: u16)
    ensures Or32Of(chn % 4 * 0x1_0000, v) == 0x1_0000 * (chn % 4) + v
  {
    hide Or;
    Powers();
    OrDisjoint(chn % 4 * 0x1_0000, v, 16);
  }

  lemma DdsSounds(chn: u8, freq: u32, amp: u16)
    requires chn < 32
    ensures Checked(DdsSetFreq(chn, freq).Control()) == 0x1800_0000 + 0x10 * chn
    ensures Checked(DdsSetTwoBytes(chn, 0x32, amp).Control()) == 0x1800_6602 + 0x10 * chn
  {
    hide Or, Checked, SimpleCmd.Control;
    ChannelWords(chn, freq);
    SetWords(chn, 0x32, amp);
    CheckedNumber(0x1000_0000 + 0x10 * chn);
    CheckedNumber(0x1000_6602 + 0x10 * chn);
  }

  lemma CommandSounds(call: Call, preserveTtl: u32, at: nat)
    requires !MayWrap(call)
    ensures call.Command().Length() == CallTime(call)
    ensures Sounds(call, preserveTtl, Pulse(at, Checked(call.Command().Control()), call.Command().Operand()), at)
  {
    hide Or, Or32Of, Checked, SimpleCmd.Control;
    match call
    case DdsFreq(chn, freq) => if chn < 32 { DdsSounds(chn, freq, 0); }
    case DdsAmp(chn, amp) => if chn < 32 { DdsSounds(chn, 0, amp); }
    case Dac(chn, v) =>
      DacOperand(chn, v);
      OtherWords(0, 0, 0, Or32Of(chn % 4 * 0x1_0000, v));
      CheckedNumber(0x6000_0000);
    case Clock(period) =>
      OtherWords(period, 0, 0, 0);
      CheckedNumber(0x5000_0000);
  }

  /** One call adds its time, and its pulse at the time it starts. */
  lemma PlaySounds(s: Score, call: Call, preserveTtl: u32, wraps: nat)
    ensures var s' := s.Play(call, preserveTtl, wraps);
            && s'.now == s.now + CallTime(call) + (if MayWrap(call) then wraps * LONG else 0)
            && if call.Delay? then s'.pulses == s.pulses
               else |s'.pulses| == |s.pulses| + 1 && s.pulses <= s'.pulses
                    && Sounds(call, preserveTtl, s'.pulses[|s.pulses|], s.now)
  {
    hide Or32Of, Checked, SimpleCmd.Control, SimpleCmd.Operand, SimpleCmd.Length, Call.Command, Sounds;
    match call
    case Ttl(ttl, t) => TtlSounds(ttl, t, preserveTtl, s.now);
    case Delay(_) =>
    case _ => CommandSounds(call, preserveTtl, s.now);
  }

  lemma {:induction false} PlayAllTotals(s: Score, calls: seq<Call>, preserveTtl: u32, wraps: seq<nat>)
    requires |wraps| == |calls|
    ensures var s' := s.PlayAll(calls, preserveTtl, wraps);
            && s'.now == s.now + TimeIn(calls, wraps)
            && |s'.pulses| == |s.pulses| + PulsesIn(calls) && s.pulses <= s'.pulses
  {
    if calls == [] {
    } else {
      var n := |calls| - 1;
      PlayAllTotals(s, calls[..n], preserveTtl, wraps[..n]);
      PlaySounds(s.PlayAll(calls[..n], preserveTtl, wraps[..n]), calls[n], preserveTtl, wraps[n]);
      hide Score.Play, CallTime, Sounds;
    }
  }

  /** The pulse of each call is heard behind those of the calls before it, at the total of the times before it. */
  lemma {:induction false} EachSounds(s: Score, calls: seq<Call>, preserveTtl: u32, wraps: seq<nat>, j: nat)
    requires |wraps| == |calls| && j < |calls| && !calls[j].Delay?
    ensures var pulses, k := s.PlayAll(calls, preserveTtl, wraps).pulses, |s.pulses| + PulsesIn(calls[..j]);
            k < |pulses| && Sounds(calls[j], preserveTtl, pulses[k], s.now + TimeIn(calls[..j], wraps[..j]))
  {
    hide CallTime, Sounds, Score.Play, TimeIn, PulsesIn;
    var n := |calls| - 1;
    var before := s.PlayAll(calls[..n], preserveTtl, wraps[..n]);
    PlaySounds(before, calls[n], preserveTtl, wraps[n]);
    if j == n {
      PlayAllTotals(s, calls[..n], preserveTtl, wraps[..n]);
    } else {
      EachSounds(s, calls[..n], preserveTtl, wraps[..n], j);
      assert calls[..n][..j] == calls[..j] && wraps[..n][..j] == wraps[..j];
    }
  }

  /** Where the pulse of the j-th call is among pulses that begin with earlier ones. */
  ghost predicate SoundsAt(pulses: seq<Pulse>, earlier: nat, start: nat, calls: seq<Call>, preserveTtl: u32,
                           wraps: seq<nat>, j: nat)
    requires |wraps| == |calls| && j < |calls|
  {
    var k := earlier + PulsesIn(calls[..j]);
    k < |pulses| && Sounds(calls[j], preserveTtl, pulses[k], start + TimeIn(calls[..j], wraps[..j]))
  }

  lemma AllSound(s: Score, calls: seq<Call>, preserveTtl: u32, wraps: seq<nat>)
    requires |wraps| == |calls|
    ensures forall j :: 0 <= j < |calls| && !calls[j].Delay? ==>
              SoundsAt(s.PlayAll(calls, preserveTtl, wraps).pulses, |s.pulses|, s.now, calls, preserveTtl, wraps, j)
  {
    hide Sounds, PulsesIn, TimeIn, Score.PlayAll;
    forall j | 0 <= j < |calls| && !calls[j].Delay?
      ensures SoundsAt(s.PlayAll(calls, preserveTtl, wraps).pulses, |s.pulses|, s.now, calls, preserveTtl, wraps, j)
    {
      EachSounds(s, calls, preserveTtl, wraps, j);
    }
  }
}
