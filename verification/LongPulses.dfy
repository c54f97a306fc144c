/** Pulses longer than one word can hold (commands.h:151-209). */
module LongPulses {
  import opened Bits
  import opened Common
  import opened Commands
  import opened Fpga
  import opened Controller
  import opened Runner

  /** The pieces of a pulse of value for t cycles from start on: as few as fit, at least one, back to back. */
  function Pieces(start: nat, t: nat, value: u32): (ps: seq<Pulse>)
    ensures |ps| == if t == 0 then 1 else (t + MAX_FIELD - 1) / MAX_FIELD
    decreases t
  {
    if t <= MAX_FIELD then [Pulse(start, t, value)]
    else [Pulse(start, MAX_FIELD, value)] + Pieces(start + MAX_FIELD, t - MAX_FIELD, value)
  }

  /** The pieces follow one another without gap from start to start + t. */
  lemma {:induction false} PiecesCover(start: nat, t: nat, value: u32, k: nat)
    requires k < |Pieces(start, t, value)|
    ensures var ps := Pieces(start, t, value);
            && ps[k].op == value && ps[k].ctrl <= 0xff_ffff && Opcode(ps[k].ctrl) == OP_TTL
            && ps[k].at + Duration(ps[k].ctrl) == (if k + 1 < |ps| then ps[k + 1].at else start + t)
            && (k == 0 ==> ps[k].at == start)
    decreases t
  {
    if t > MAX_FIELD {
      PiecesCover(start + MAX_FIELD, t - MAX_FIELD, value, if k > 0 then k - 1 else 0);
    }
  }

  /** `WaitPulse::run`. */
  method RunWaitPulse(c: Controller, t0: u64)
    requires c.Valid()
    modifies c`log
    ensures c.Valid() && old(c.log) <= c.log
    ensures Elapsed(c.log) == old(Elapsed(c.log)) + t0
    ensures Pulses(c.log) == old(Pulses(c.log))
    ensures |c.log| - |old(c.log)| == if t0 == 0 then 1 else (t0 + 0xff_fffe) / 0xff_ffff
    ensures forall k :: |old(c.log)| <= k < |c.log| ==>
              c.log[k].origin == Program && c.log[k].op == 0 && 0x2000_0000 <= c.log[k].ctrl <= 0x20ff_ffff
  {
    hide Or, Consistent, Elapsed, Pulses, IsWait;
    var t := t0;
    ghost var n := 0;
    while true
      invariant c.Valid() && old(c.log) <= c.log && t <= t0 && (n > 0 ==> t > 0)
      invariant Elapsed(c.log) == old(Elapsed(c.log)) + (t0 - t)
      invariant Pulses(c.log) == old(Pulses(c.log))
      invariant |c.log| == |old(c.log)| + n && t0 == t + n * MAX_FIELD
      invariant forall k :: |old(c.log)| <= k < |c.log| ==>
                  c.log[k].origin == Program && c.log[k].op == 0 && 0x2000_0000 <= c.log[k].ctrl <= 0x20ff_ffff
      decreases t
    {
      var step := Min(t, MAX_FIELD);
      ShortWait(c, step, 0);
      t := t - step;
      n := n + 1;
      if t == 0 { break; }
    }
  }

  /** `TTLPulse::run`: the value is held from now on for t cycles. */
  method RunTtlPulse(c: Controller, t0: u64, value: u32)
    requires c.Valid()
    modifies c`log
    ensures c.Valid() && old(c.log) <= c.log
    ensures Elapsed(c.log) == old(Elapsed(c.log)) + t0
    ensures Pulses(c.log) == old(Pulses(c.log)) + Pieces(old(Elapsed(c.log)), t0, value)
  {
    hide Or, Consistent, Elapsed, Pulses;
    var t: u64 := t0;
    while true
      invariant c.Valid() && old(c.log) <= c.log && t <= t0
      invariant Elapsed(c.log) == old(Elapsed(c.log)) + (t0 - t)
      invariant Pulses(c.log) + Pieces(Elapsed(c.log), t, value) ==
                old(Pulses(c.log)) + Pieces(old(Elapsed(c.log)), t0, value)
      decreases t
    {
      var step: u32 := Min(t, MAX_FIELD);
      c.ShortPulse(step, value);
      t := t - step;
      if t == 0 { break; }
    }
  }
}
