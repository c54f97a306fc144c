/**
 The word stream of the FPGA. A log entry is one word pair written to it, with the party it was
 written for. The FPGA works through the words in order, so the time of a word is the time
 the words before it take.
 */
module Fpga {
  import opened Bits
  import opened Commands

  /** A queued command of another thread; its words and length are those of the command. */
  datatype Request = Request(id: nat, cmd: Cmd)

  datatype Origin = Program | Queued(request: Request)
  datatype Entry = Entry(ctrl: u32, op: u32, origin: Origin)

  /** A request's word, with the flags it is written with. */
  predicate RequestWord(e: Entry, r: Request, flags: u32) {
    e.origin == Queued(r) && e.ctrl == Or(r.cmd.Control(), flags) && e.op == r.cmd.Operand()
  }

  /** The words of a batch of requests, from a position on to the end of the log. */
  ghost predicate RequestWords(log: seq<Entry>, from: nat, rs: seq<Request>, flags: u32) {
    |log| == from + |rs| && forall k :: 0 <= k < |rs| ==> RequestWord(log[from + k], rs[k], flags)
  }

  /**
   A word that asks for the timing check, which is bit 27: a request's word with that bit, a wait word of the program
   with no operand, or another word of the program.
   */
  predicate Timed(e: Entry) {
    match e.origin
    case Queued(r) => RequestWord(e, r, 0x800_0000)
    case Program => e.ctrl / 0x800_0000 % 2 == 1 && (e.ctrl / 0x1000_0000 == 2 ==> e.op == 0)
  }

  ghost predicate AllTimed(log: seq<Entry>, from: nat) {
    forall k :: from <= k < |log| ==> Timed(log[k])
  }

  /** A word of the program that is not a wait, and when it takes effect. */
  datatype Pulse = Pulse(at: nat, ctrl: u32, op: u32)

  function Elapsed(log: seq<Entry>): nat {
    if log == [] then 0 else Elapsed(log[..|log| - 1]) + Duration(log[|log| - 1].ctrl)
  }

  function Pulses(log: seq<Entry>): seq<Pulse> {
    if log == [] then []
    else
      var before, e := log[..|log| - 1], log[|log| - 1];
      if e.origin == Program && Opcode(e.ctrl) != OP_WAIT
      then Pulses(before) + [Pulse(Elapsed(before), e.ctrl, e.op)]
      else Pulses(before)
  }

  /** The queued requests written so far, in order. */
  function Sent(log: seq<Entry>): seq<Request> {
    if log == [] then []
    else
      var before, e := log[..|log| - 1], log[|log| - 1];
      if e.origin.Queued? then Sent(before) + [e.origin.request] else Sent(before)
  }

  lemma Appended(log: seq<Entry>, e: Entry)
    ensures Elapsed(log + [e]) == Elapsed(log) + Duration(e.ctrl)
    ensures Pulses(log + [e]) == Pulses(log) +
                                 if e.origin == Program && Opcode(e.ctrl) != OP_WAIT
                                 then [Pulse(Elapsed(log), e.ctrl, e.op)] else []
    ensures Sent(log + [e]) == Sent(log) + if e.origin.Queued? then [e.origin.request] else []
  {
    assert (log + [e])[..|log|] == log;
  }

  function TotalLength(rs: seq<Request>): nat {
    if rs == [] then 0 else TotalLength(rs[..|rs| - 1]) + rs[|rs| - 1].cmd.Length()
  }

  /** Those of rs that return a result, or those that do not, in order. */
  function Returning(rs: seq<Request>, hasRes: bool): seq<Request> {
    if rs == [] then []
    else
      var last := rs[|rs| - 1];
      Returning(rs[..|rs| - 1], hasRes) + if last.cmd.HasRes() == hasRes then [last] else []
  }

  lemma {:induction false} TotalLengthBound(rs: seq<Request>)
    ensures TotalLength(rs) <= DDS_TIME * |rs|
  {
    if rs == [] {
    } else {
      TotalLengthBound(rs[..|rs| - 1]);
      CommandTakesItsLength(rs[|rs| - 1].cmd);
    }
  }

  /** Only an empty batch takes no time. */
  lemma NoTimeNoRequests(rs: seq<Request>)
    ensures TotalLength(rs) == 0 <==> rs == []
  {
  }

  lemma {:induction false} ReturningSplits(rs: seq<Request>)
    ensures |Returning(rs, true)| + |Returning(rs, false)| == |rs|
  {
    if rs == [] {
    } else {
      ReturningSplits(rs[..|rs| - 1]);
    }
  }

  /** Filtering keeps the order: it works on each request by itself. */
  lemma {:induction false} ReturningConcat(a: seq<Request>, b: seq<Request>, hasRes: bool)
    ensures Returning(a + b, hasRes) == Returning(a, hasRes) + Returning(b, hasRes)
  {
    if b == [] {
      assert a + b == a;
    } else {
      var front := b[..|b| - 1];
      ReturningConcat(a, front, hasRes);
      assert (a + b)[..|a + b| - 1] == a + front;
    }
  }

  lemma ReturningOne(r: Request, hasRes: bool)
    ensures Returning([r], hasRes) == if r.cmd.HasRes() == hasRes then [r] else []
  {
    assert [r][..0] == [];
  }
}
