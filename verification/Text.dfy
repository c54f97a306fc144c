/** Searching and splitting byte strings. */
module Text {
  import opened Bits
  import opened Common

  type str = seq<u8>

  const NUL: u8 := 0
  const NEWLINE: u8 := 10
  const SPACE: u8 := 32
  const PERCENT: u8 := 37
  const AMPERSAND: u8 := 38
  const PLUS: u8 := 43
  const MINUS: u8 := 45
  const SEMICOLON: u8 := 59
  const EQUALS: u8 := 61
  const LBRACE: u8 := 123
  const RBRACE: u8 := 125

  /** The first position of c from a position on. */
  function Find(s: str, c: u8, from: nat): (k: Option<nat>)
    ensures k.Some? ==> from <= k.value < |s| && s[k.value] == c && c !in s[from..k.value]
    ensures k.None? && from <= |s| ==> c !in s[from..]
    decreases |s| - from
  {
    if from >= |s| then None else if s[from] == c then Some(from) else Find(s, c, from + 1)
  }

  /** The last position of c. */
  function RFind(s: str, c: u8): (k: Option<nat>)
    ensures k.Some? ==> k.value < |s| && s[k.value] == c && c !in s[k.value + 1..]
    ensures k.None? ==> c !in s
  {
    if s == [] then None
    else if s[|s| - 1] == c then Some(|s| - 1)
    else
      var k := RFind(s[..|s| - 1], c);
      assert k.Some? ==> s[k.value + 1..] == s[..|s| - 1][k.value + 1..] + [s[|s| - 1]];
      assert s == s[..|s| - 1] + [s[|s| - 1]];
      k
  }

  lemma FindIs(s: str, c: u8, from: nat, k: nat)
    requires from <= k < |s| && s[k] == c && c !in s[from..k]
    ensures Find(s, c, from) == Some(k)
    decreases k - from
  {
    if from < k {
      assert s[from..k][0] == s[from] && s[from..k][1..] == s[from + 1..k];
      FindIs(s, c, from + 1, k);
    }
  }

  lemma RFindIs(s: str, c: u8, k: nat)
    requires k < |s| && s[k] == c && c !in s[k + 1..]
    ensures RFind(s, c) == Some(k)
  {
    if k + 1 < |s| {
      assert s[k + 1..][|s| - k - 2] == s[|s| - 1];
      assert s[..|s| - 1][k + 1..] == s[k + 1..][..|s| - k - 2];
      RFindIs(s[..|s| - 1], c, k);
    }
  }

  /** The pieces of s between occurrences of c; at least one. */
  function Split(s: str, c: u8): (ps: seq<str>)
    ensures |ps| > 0
  {
    var k := Find(s, c, 0);
    if k.None? then [s] else [s[..k.value]] + Split(s[k.value + 1..], c)
  }

  lemma SplitFirst(a: str, c: u8, b: str)
    requires c !in a
    ensures Split(a + [c] + b, c) == [a] + Split(b, c)
  {
    var s := a + [c] + b;
    assert s[0..|a|] == a;
    FindIs(s, c, 0, |a|);
    assert s[..|a|] == a && s[|a| + 1..] == b;
  }

  lemma SplitNext(s: str, c: u8)
    ensures var k := Find(s, c, 0);
            Split(s, c) == if k.None? then [s] + [] else [s[..k.value]] + Split(s[k.value + 1..], c)
  {
    hide Find;
    assert [s] + [] == [s];
  }

  lemma SplitNone(s: str, c: u8)
    requires c !in s
    ensures Split(s, c) == [s]
  {
  }

  /** Pieces hold no separator, and nothing that the string does not hold. */
  lemma {:induction false} SplitPieces(s: str, c: u8, i: nat, x: u8)
    requires i < |Split(s, c)| && x in Split(s, c)[i]
    ensures x in s && x != c
  {
    var k := Find(s, c, 0);
    if k.None? {
      assert s[0..] == s;
    } else if i == 0 {
      assert s[..k.value] == s[0..k.value];
    } else {
      SplitPieces(s[k.value + 1..], c, i - 1, x);
    }
  }

  /** `std::string(s, pos, count)`: as much as there is. A negative count wraps to one longer than any string. */
  function Substr(s: str, pos: nat, count: int): str
    requires pos <= |s|
  {
    if 0 <= count <= |s| - pos then s[pos..pos + count] else s[pos..]
  }

  /** `std::string(s, pos, count)` in numbers: count characters, or all there are. */
  lemma SubstrLength(s: str, pos: nat, count: int)
    requires pos <= |s|
    ensures Substr(s, pos, count) <= s[pos..]
    ensures |Substr(s, pos, count)| == if 0 <= count <= |s| - pos then count else |s| - pos
  {
  }
}
