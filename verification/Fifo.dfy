/** The growable ring buffer behind the controller's queues (controller.h:51-206). */
module Fifo {
  import opened Bits
  import opened Common

  ghost predicate IsPowerOfTwo(n: nat) {
    exists k: nat :: k <= 64 && n == Pow2(k)
  }

  /** Number of binary digits. */
  function GetBits(n: nat): nat {
    if n == 0 then 0 else 1 + GetBits(n / 2)
  }

  lemma {:induction false} GetBitsOf(n: nat)
    requires n > 0
    ensures GetBits(n) > 0 && Pow2(GetBits(n) - 1) <= n < 2 * Pow2(GetBits(n) - 1)
  {
    if n > 1 { GetBitsOf(n / 2); }
  }

  lemma {:induction false} Pow2Add(a: nat, b: nat)
    ensures Pow2(a + b) == Pow2(a) * Pow2(b)
  {
    if a == 0 {
    } else {
      Pow2Add(a - 1, b);
      assert Pow2(a + b) == 2 * Pow2(a - 1 + b);
      assert 2 * (Pow2(a - 1) * Pow2(b)) == (2 * Pow2(a - 1)) * Pow2(b);
    }
  }

  /** A position moved on by at most one lap. */
  function Wrap(x: nat, alloc: nat): nat {
    if x < alloc then x else x - alloc
  }

  /** The position i places after start in a ring. */
  function Slot(start: nat, i: nat, alloc: nat): nat {
    Wrap(start + i, alloc)
  }

  lemma WrapIsModulo(x: nat, alloc: nat)
    requires 0 < alloc && x < 2 * alloc
    ensures x % alloc == Wrap(x, alloc)
  {
    DivModUnique(x, alloc, if x < alloc then 0 else 1, Wrap(x, alloc));
  }

  /** Masking with the capacity wraps a position. */
  lemma MaskWraps(x: nat, alloc: nat)
    requires IsPowerOfTwo(alloc) && x < 2 * alloc
    ensures And(x, alloc - 1) == Wrap(x, alloc)
  {
    var k: nat :| k <= 64 && alloc == Pow2(k);
    AndLow(x, k);
    WrapIsModulo(x, alloc);
  }

  lemma LapsInLong(k: nat)
    requires k <= 64
    ensures LONG == Pow2(64 - k) * Pow2(k) && Pow2(k) <= LONG
  {
    Powers();
    Pow2Add(64 - k, k);
    Pow2Monotone(k, 64);
  }

  lemma BackwardsModulo(alloc: nat, laps: nat, back: int)
    requires 0 < back < alloc && LONG == laps * alloc
    ensures (-back) % LONG % alloc == alloc - back
  {
    var x: nat := LONG - back by { MulAtLeast(laps, alloc); }
    assert (-back) % LONG == x;
    assert x == (laps - 1) * alloc + (alloc - back);
    DivModUnique(x, alloc, laps - 1, alloc - back);
  }

  /** The wrapped difference of the positions, masked, is the distance from the read to the write position. */
  lemma MaskedDifference(alloc: nat, readP: nat, writeP: nat)
    requires IsPowerOfTwo(alloc) && readP < alloc && writeP < alloc
    ensures And((writeP - readP) % LONG, alloc - 1) ==
            if readP <= writeP then writeP - readP else writeP - readP + alloc
  {
    hide And;
    var k: nat :| k <= 64 && alloc == Pow2(k);
    AndLow((writeP - readP) % LONG, k);
    LapsInLong(k);
    if readP <= writeP {
      WrapIsModulo(writeP - readP, alloc);
    } else {
      BackwardsModulo(alloc, Pow2(64 - k), readP - writeP);
    }
  }

  /** How many of len elements `doPush` copies up to the end of the buffer, as the source computes it. */
  function CopyLength(alloc: nat, startP: nat, newP: nat, len: nat): nat {
    if newP > startP || newP == 0 then len else (len - newP) % LONG
  }

  /**
   For every capacity and length with room the copies stay in the buffer, exactly when there is something to push or the
   write position is 0.
   */
  lemma EmptyPushOverruns(alloc: nat, startP: nat, len: nat)
    requires 0 < alloc < LONG && startP < alloc && len < alloc
    ensures CopyLength(alloc, startP, Wrap(startP + len, alloc), len) <= alloc - startP <==> len > 0 || startP == 0
  {
  }

  /** The n elements of a ring from a position on, in order. */
  function Ring<T>(buff: seq<T>, start: nat, n: nat): (s: seq<T>)
    requires start < |buff| && n <= |buff|
    ensures |s| == n
  {
    seq(n, i requires 0 <= i < n => buff[Slot(start, i, |buff|)])
  }

  /** Whether p is one of the len positions from start on. */
  predicate Between(p: nat, start: nat, len: nat, alloc: nat) {
    start <= p < start + len || p + alloc < start + len
  }

  /** The len positions from start on hold v, and the others are unchanged. */
  ghost predicate Written<T>(b: seq<T>, b': seq<T>, start: nat, v: seq<T>)
    requires |b| == |b'| && start < |b| && |v| < |b|
  {
    && (forall i :: 0 <= i < |v| ==> b'[Slot(start, i, |b|)] == v[i])
    && (forall p :: 0 <= p < |b| && !Between(p, start, |v|, |b|) ==> b'[p] == b[p])
  }

  /** The elements of a ring are not among the free positions behind them. */
  lemma SlotsApart(start: nat, n: nat, len: nat, alloc: nat)
    requires start < alloc && n + len < alloc
    ensures forall i :: 0 <= i < n ==> !Between(Slot(start, i, alloc), Slot(start, n, alloc), len, alloc)
  {
  }

  /** Writing v behind the n elements of a ring appends it. */
  lemma RingAppend<T>(b: seq<T>, b': seq<T>, start: nat, n: nat, v: seq<T>)
    requires start < |b| == |b'| && n + |v| < |b|
    requires forall i :: 0 <= i < n ==> b'[Slot(start, i, |b|)] == b[Slot(start, i, |b|)]
    requires forall i :: 0 <= i < |v| ==> b'[Slot(Slot(start, n, |b|), i, |b|)] == v[i]
    ensures Ring(b', start, n + |v|) == Ring(b, start, n) + v
  {
    forall i | 0 <= i < n + |v| ensures b'[Slot(start, i, |b|)] == (Ring(b, start, n) + v)[i] {
      if i >= n { assert Slot(start, i, |b|) == Slot(Slot(start, n, |b|), i - n, |b|); }
    }
  }

  /** What changes only the free positions behind a ring, and puts v there, appends v. */
  lemma RingPushed<T>(b: seq<T>, b': seq<T>, start: nat, n: nat, v: seq<T>)
    requires start < |b| == |b'| && n + |v| < |b|
    requires Written(b, b', Slot(start, n, |b|), v)
    ensures Ring(b', start, n + |v|) == Ring(b, start, n) + v
  {
    SlotsApart(start, n, |v|, |b|);
    hide Between;
    RingAppend(b, b', start, n, v);
  }

  /** In a buffer of twice the size a ring keeps its elements if its wrapped part is copied behind the old end. */
  lemma RingDoubled<T>(b: seq<T>, b': seq<T>, start: nat, n: nat)
    requires start < |b| && n < |b| && |b'| == 2 * |b|
    requires forall i :: start <= i < |b| ==> b'[i] == b[i]
    requires forall i :: |b| <= i < start + n ==> b'[i] == b[i - |b|]
    ensures Ring(b', start, n) == Ring(b, start, n)
  {
    forall i | 0 <= i < n ensures b'[Slot(start, i, |b'|)] == b[Slot(start, i, |b|)] {
      assert Slot(start, i, |b'|) == start + i;
    }
  }

  /** The first len elements of a ring, and what is left from len further on. */
  lemma RingSplit<T>(b: seq<T>, start: nat, n: nat, len: nat)
    requires start < |b| && len <= n < |b|
    ensures Ring(b, start, n) == Ring(b, start, len) + Ring(b, Slot(start, len, |b|), n - len)
  {
    forall i | len <= i < n ensures b[Slot(start, i, |b|)] == Ring(b, Slot(start, len, |b|), n - len)[i - len] {
      assert Slot(Slot(start, len, |b|), i - len, |b|) == Slot(start, i, |b|);
    }
  }

  /** A ring of len elements is one stretch of the buffer, or two. */
  lemma RingStretches<T>(b: seq<T>, start: nat, len: nat)
    requires start < |b| && len < |b|
    ensures Ring(b, start, len) ==
            if start + len <= |b| then b[start..start + len] else b[start..] + b[..start + len - |b|]
  {
  }

  lemma DoubledPower(n: nat)
    requires IsPowerOfTwo(n) && 2 * n < LONG
    ensures IsPowerOfTwo(2 * n)
  {
    var k: nat :| k <= 64 && n == Pow2(k);
    Powers();
    if k == 64 { assert false; }
    assert 2 * n == Pow2(k + 1);
  }

  /** Which power of two the source takes for the capacity. */
  function CapacityBits(size: nat): nat {
    Max(GetBits(size) - 1, 2)
  }

  /** The capacity is the wanted size rounded down to a power of two, at least 4. */
  lemma Capacity(size: nat)
    requires size < LONG
    ensures var n := Pow2(CapacityBits(size));
            && IsPowerOfTwo(n) && 4 <= n < LONG
            && if size < 8 then n == 4 else n <= size < 2 * n
  {
    var k := CapacityBits(size);
    Powers();
    assert Pow2(2) == 4 && Pow2(3) == 8;
    if size > 0 { GetBitsOf(size); }
    Pow2Monotone(2, k);
    if k > 2 { Pow2Monotone(3, k); }
    if GetBits(size) < 3 && GetBits(size) > 0 { Pow2Monotone(GetBits(size) - 1, 1); }
    if k > 64 { Pow2Monotone(64, k); }
  }

  /** Shifting a 32-bit 1 gives that power of two exactly for sizes below 2^31. */
  lemma ShiftFits(size: nat)
    requires size < LONG
    ensures Pow2(CapacityBits(size)) <= 0x7fff_ffff <==> size < 0x8000_0000
  {
    Powers();
    Capacity(size);
    var k := CapacityBits(size);
    assert Pow2(31) == 0x8000_0000 by { assert Pow2(32) == 2 * Pow2(31); }
    assert Pow2(30) == 0x4000_0000 by { assert Pow2(31) == 2 * Pow2(30); }
    if k <= 30 { Pow2Monotone(k, 30); } else { Pow2Monotone(31, k); }
  }

  class Fifo<T(0)> {
    var alloc: nat
    var buff: array<T>
    var readP: nat
    var writeP: nat
    ghost const initial: nat
    /** The greatest number of elements held so far. */
    ghost var peak: nat

    /** A ring with both positions in it. */
    ghost predicate Sound()
      reads this, buff
    {
      && alloc == buff.Length && IsPowerOfTwo(alloc) && 4 <= alloc < LONG
      && readP < alloc && writeP < alloc && Length() <= peak
    }

    /** And no larger than it had to become. */
    ghost predicate Valid()
      reads this, buff
    {
      Sound() && alloc <= Max(initial, 2 * peak)
    }

    /** The distance from the read to the write position; one slot always stays free. */
    function Length(): nat
      reads this
      requires readP < alloc && writeP < alloc
    {
      if readP <= writeP then writeP - readP else writeP - readP + alloc
    }

    ghost function Contents(): seq<T>
      reads this, buff
      requires Sound()
    {
      Ring(buff[..], readP, Length())
    }

    /** The constructor rounds the wanted size down to a power of two, at least 4; from 2^31 up its shift overflows. */
    constructor (size: nat)
      requires size < 0x8000_0000
      ensures Valid() && Contents() == [] && fresh(buff)
      ensures initial == alloc && peak == 0
      ensures if size < 8 then alloc == 4 else alloc <= size < 2 * alloc
    {
      Capacity(size);
      ShiftFits(size);
      var n: nat := Pow2(CapacityBits(size));
      assert n <= 0x7fff_ffff;
      alloc := n;
      buff := new T[n];
      readP, writeP := 0, 0;
      initial, peak := n, 0;
    }

    method Size() returns (n: nat)
      requires Sound()
      ensures n == |Contents()|
    {
      MaskedDifference(alloc, readP, writeP);
      n := And((writeP - readP) % LONG, alloc - 1);
    }

    method SpaceLeft() returns (n: nat)
      requires Sound()
      ensures n == alloc - |Contents()| && n > 0
    {
      var size := Size();
      n := alloc - size;
    }

    method DoPushOne(v: T)
      requires Sound() && |Contents()| + 1 < alloc
      modifies this`writeP, this`peak, buff
      ensures Sound() && Contents() == old(Contents()) + [v] && peak == Max(old(peak), |Contents()|)
    {
      hide And, IsPowerOfTwo, Ring;
      ghost var before, n := buff[..], Length();
      buff[writeP] := v;
      MaskWraps(writeP + 1, alloc);
      writeP := And(writeP + 1, alloc - 1);
      peak := Max(peak, Length());
      RingAppend(before, buff[..], readP, n, [v]);
    }

    /** The copying part of `doPush`: one copy, or two when the new elements run past the end of the buffer. */
    method CopyIn(startP: nat, newP: nat, v: seq<T>)
      requires alloc == buff.Length < LONG && startP < alloc && |v| < alloc
      requires newP == Slot(startP, |v|, alloc) && (|v| > 0 || startP == 0)
      modifies buff
      ensures Written(old(buff[..]), buff[..], startP, v)
    {
      EmptyPushOverruns(alloc, startP, |v|);
      var startLen := CopyLength(alloc, startP, newP, |v|);
      forall i | 0 <= i < startLen { buff[startP + i] := v[i]; }
      if !(newP > startP || newP == 0) {
        forall i | 0 <= i < newP { buff[i] := v[startLen + i]; }
      }
    }

    /** The caller needs room, and something to push unless the write position is 0: see EmptyPushOverruns. */
    method DoPush(v: seq<T>)
      requires Sound() && |Contents()| + |v| < alloc
      requires |v| > 0 || writeP == 0
      modifies this`writeP, this`peak, buff
      ensures Sound() && Contents() == old(Contents()) + v && peak == Max(old(peak), |Contents()|)
    {
      hide And, IsPowerOfTwo, Ring, Written;
      ghost var before, n := buff[..], Length();
      var startP := writeP;
      MaskWraps(writeP + |v|, alloc);
      writeP := And(writeP + |v|, alloc - 1);
      assert startP == Slot(readP, n, alloc) && writeP == Slot(startP, |v|, alloc) && Length() == n + |v|;
      hide Slot, Wrap;
      CopyIn(startP, writeP, v);
      peak := Max(peak, n + |v|);
      RingPushed(before, buff[..], readP, n, v);
    }

    /** The buffer grows in place: what had wrapped to its start moves behind its old end. */
    method DoubleSize()
      requires Sound() && 2 * alloc < LONG
      modifies this`alloc, this`buff, this`writeP
      ensures Sound() && Contents() == old(Contents())
      ensures alloc == 2 * old(alloc) && fresh(buff)
      ensures writeP == old(writeP) + if readP > old(writeP) then old(alloc) else 0
    {
      hide And, IsPowerOfTwo, Ring;
      ghost var before, n := buff[..], Length();
      DoubledPower(alloc);
      var grown := new T[2 * alloc];
      forall i | 0 <= i < alloc { grown[i] := buff[i]; }
      buff := grown;
      if readP > writeP {
        if writeP > 0 {
          forall i | 0 <= i < writeP { buff[alloc + i] := buff[i]; }
        }
        writeP := writeP + alloc;
      }
      alloc := alloc * 2;
      RingDoubled(before, buff[..], readP, n);
    }

    method TryPush(v: seq<T>) returns (len: nat)
      requires Valid()
      modifies this`writeP, this`peak, buff
      ensures Valid() && len == Min(alloc - 1 - |old(Contents())|, |v|)
      ensures Contents() == old(Contents()) + v[..len]
    {
      hide And, IsPowerOfTwo, Ring;
      var space := SpaceLeft();
      len := Min(space - 1, |v|);
      if len > 0 {
        DoPush(v[..len]);
      }
    }

    method TryPushOne(v: T) returns (ok: bool)
      requires Valid()
      modifies this`writeP, this`peak, buff
      ensures Valid() && ok == (|old(Contents())| + 1 < alloc)
      ensures Contents() == if ok then old(Contents()) + [v] else old(Contents())
    {
      hide And, IsPowerOfTwo, Ring;
      var space := SpaceLeft();
      if space <= 1 { return false; }
      DoPushOne(v);
      ok := true;
    }

    /** The buffer doubles until v fits, and then holds more than half its capacity. */
    method Push(v: seq<T>)
      requires Valid() && 2 * (|Contents()| + |v|) < LONG
      requires |v| > 0 || writeP == 0
      modifies this`alloc, this`buff, this`writeP, this`peak, buff
      ensures Valid() && Contents() == old(Contents()) + v
      ensures buff == old(buff) || fresh(buff)
      ensures alloc == old(alloc) || alloc <= 2 * |Contents()|
    {
      hide And, IsPowerOfTwo, Ring;
      var space := SpaceLeft();
      while space <= |v|
        invariant Sound() && Contents() == old(Contents()) && space == alloc - |Contents()|
        invariant buff == old(buff) || fresh(buff)
        invariant alloc == old(alloc) || alloc <= 2 * (|Contents()| + |v|)
        invariant |v| == 0 ==> writeP == old(writeP)
        invariant peak == old(peak)
        decreases |v| + |Contents()| + 1 - alloc
      {
        DoubleSize();
        space := SpaceLeft();
      }
      DoPush(v);
    }

    method PushOne(v: T)
      requires Valid() && 2 * (|Contents()| + 1) < LONG
      modifies this`alloc, this`buff, this`writeP, this`peak, buff
      ensures Valid() && Contents() == old(Contents()) + [v]
      ensures buff == old(buff) || fresh(buff)
      ensures alloc == old(alloc) || alloc == 2 * |Contents()|
    {
      hide And, IsPowerOfTwo, Ring;
      var space := SpaceLeft();
      if space <= 1 { DoubleSize(); }
      DoPushOne(v);
    }

    /** No protection against an empty buffer: the caller has to know better. */
    method PopOne() returns (v: T)
      requires Valid() && |Contents()| > 0
      modifies this`readP
      ensures Valid() && old(Contents()) == [v] + Contents()
    {
      hide And, IsPowerOfTwo, Ring;
      v := buff[readP];
      RingSplit(buff[..], readP, Length(), 1);
      RingStretches(buff[..], readP, 1);
      MaskWraps(readP + 1, alloc);
      readP := And(readP + 1, alloc - 1);
    }

    /** The copying part of `pop`: one copy, or two when the elements run past the end of the buffer. */
    method CopyOut(startP: nat, newP: nat, len: nat) returns (v: seq<T>)
      requires alloc == buff.Length && startP < alloc && 0 < len < alloc && newP == Slot(startP, len, alloc)
      ensures v == Ring(buff[..], startP, len)
    {
      RingStretches(buff[..], startP, len);
      hide Ring;
      if newP > startP || newP == 0 {
        v := buff[startP..startP + len];
      } else {
        var startLen := len - newP;
        v := buff[startP..startP + startLen] + buff[..newP];
      }
    }

    /** The oldest elements, at most maxLen of them. */
    method Pop(maxLen: nat) returns (v: seq<T>)
      requires Valid()
      modifies this`readP
      ensures Valid() && |v| == Min(maxLen, |old(Contents())|) && old(Contents()) == v + Contents()
    {
      hide And, IsPowerOfTwo, Ring;
      var size := Size();
      var len := Min(size, maxLen);
      if len == 0 { return []; }
      var startP := readP;
      RingSplit(buff[..], readP, Length(), len);
      MaskWraps(readP + len, alloc);
      readP := And(readP + len, alloc - 1);
      v := CopyOut(startP, readP, len);
    }
  }
}
