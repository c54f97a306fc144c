/** Percent-encoding (saveloadmap.cpp:88-176; sections 2.1 and 2.3 of RFC 3986). */
module Percent {
  import opened Bits
  import opened Common
  import opened Text

  /** The unreserved characters of RFC 3986, section 2.3. */
  predicate Unreserved(c: u8) {
    48 <= c <= 57 || 65 <= c <= 90 || 97 <= c <= 122 || c == MINUS || c == 95 || c == 46 || c == 126
  }

  /** A hexadecimal digit as the stream writes it. */
  function HexDigit(d: nat): u8
    requires d < 16
  {
    if d < 10 then 48 + d else 87 + d
  }

  function EncodedByte(c: u8): str {
    if Unreserved(c) then [c] else [PERCENT, HexDigit(c / 16), HexDigit(c % 16)]
  }

  function Encoded(s: str): str {
    if s == [] then [] else EncodedByte(s[0]) + Encoded(s[1..])
  }

  lemma EncodedNext(s: str, i: nat)
    requires i < |s|
    ensures Encoded(s[i..]) == EncodedByte(s[i]) + Encoded(s[i + 1..])
  {
    assert s[i..][1..] == s[i + 1..];
  }

  lemma NothingEncoded()
    ensures Encoded([]) == []
  {
  }

  lemma Concatenated(a: str, b: str, c: str)
    ensures a + (b + c) == (a + b) + c
  {
  }

  method UrlEncode(value: str) returns (escaped: str)
    ensures escaped == Encoded(value)
  {
    hide Encoded, HexDigit, Unreserved;
    escaped := [];
    var i := 0;
    assert value[0..] == value && [] + Encoded(value) == Encoded(value);
    while i < |value|
      invariant 0 <= i <= |value|
      invariant escaped + Encoded(value[i..]) == Encoded(value)
    {
      var c := value[i];
      EncodedNext(value, i);
      Concatenated(escaped, EncodedByte(c), Encoded(value[i + 1..]));
      if Unreserved(c) {
        escaped := escaped + [c];
      } else {
        Concatenated(escaped, [PERCENT], [HexDigit(c / 16), HexDigit(c % 16)]);
        escaped := escaped + [PERCENT] + [HexDigit(c / 16), HexDigit(c % 16)];
      }
      i := i + 1;
    }
    assert Encoded(value[i..]) == [] by { NothingEncoded(); assert value[i..] == []; }
  }

  function HexValue(c: u8): Option<nat> {
    if 48 <= c <= 57 then Some(c - 48)
    else if 97 <= c <= 102 then Some(c - 87)
    else if 65 <= c <= 70 then Some(c - 55)
    else None
  }

  /** The number at the start of at most two characters, if they start with one; a bare 0x does not. */
  function HexNumber(s: str): Option<nat>
    requires |s| <= 2
  {
    if s == [] then None
    else if |s| == 2 && s[0] == 48 && (s[1] == 120 || s[1] == 88) then None
    else if HexValue(s[0]).None? then None
    else if |s| == 1 || HexValue(s[1]).None? then HexValue(s[0])
    else Some(HexValue(s[0]).value * 16 + HexValue(s[1]).value)
  }

  function Signed(n: int, negative: bool): int {
    if negative then -n else n
  }

  /** What `sscanf("%x")` reads: leading white space and a sign are accepted. */
  function ScanHex(s: str): Option<int>
    requires |s| <= 2
  {
    if s == [] then None
    else if s[0] == SPACE || 9 <= s[0] <= 13 then ScanHex(s[1..])
    else if s[0] == PLUS || s[0] == MINUS then
      var n := HexNumber(s[1..]);
      if n.None? then None else Some(Signed(n.value, s[0] == MINUS))
    else
      var n := HexNumber(s);
      if n.None? then None else Some(Signed(n.value, false))
  }

  /** The two characters after position i, as far as there are. */
  function Escape(s: str, i: nat): (e: str)
    requires i < |s|
    ensures |e| <= 2
  {
    Substr(s, i + 1, 2)
  }

  /** The decoded string; None if some escape holds no number, where the source uses an uninitialised one. */
  function Decoded(s: str): Option<str>
    decreases |s|
  {
    if s == [] then Some([])
    else if s[0] == PERCENT then
      var ii := ScanHex(Escape(s, 0));
      var rest := Decoded(if |s| >= 3 then s[3..] else []);
      if ii.None? || rest.None? then None else Some([ii.value % 256] + rest.value)
    else
      var rest := Decoded(s[1..]);
      if rest.None? then None else Some([if s[0] == PLUS then SPACE else s[0]] + rest.value)
  }

  function Prepend(s: str, rest: Option<str>): Option<str> {
    if rest.None? then None else Some(s + rest.value)
  }

  lemma Prepended(a: str, b: str, rest: Option<str>)
    ensures Prepend([], rest) == rest
    ensures Prepend(a, Prepend(b, rest)) == Prepend(a + b, rest)
    ensures Prepend(a, None) == None
  {
    if rest.Some? {
      assert [] + rest.value == rest.value && a + (b + rest.value) == (a + b) + rest.value;
    }
  }

  /** The rest of s from position i on, nothing if that is past the end. */
  function From(s: str, i: nat): str {
    if i <= |s| then s[i..] else []
  }

  lemma NothingDecoded(out: str, s: str, i: nat)
    requires i >= |s|
    ensures Prepend(out, Decoded(From(s, i))) == Some(out)
  {
    assert From(s, i) == [];
    assert out + [] == out;
  }

  lemma DecodedNext(s: str, i: nat)
    requires i < |s|
    ensures Decoded(From(s, i)) ==
            if s[i] == PERCENT
            then if ScanHex(Escape(s, i)).None? then None
                 else Prepend([ScanHex(Escape(s, i)).value % 256], Decoded(From(s, i + 3)))
            else Prepend([if s[i] == PLUS then SPACE else s[i]], Decoded(From(s, i + 1)))
  {
    hide ScanHex;
    var rest := s[i..];
    assert rest[1..] == s[i + 1..];
    assert |rest| >= 3 ==> rest[3..] == s[i + 3..];
    assert Escape(rest, 0) == Escape(s, i);
  }

  // Where decoding is defined

  /** Whether the scan that is at position from comes to position i. */
  predicate Visits(s: str, from: nat, i: nat)
    decreases |s| - from
  {
    from == i || (from < |s| && from < i && Visits(s, from + (if s[from] == PERCENT then 3 else 1), i))
  }

  ghost predicate EscapesHoldNumbers(s: str, from: nat) {
    forall i :: from <= i < |s| && Visits(s, from, i) && s[i] == PERCENT ==> ScanHex(Escape(s, i)).Some?
  }

  lemma {:induction false} VisitsForward(s: str, from: nat, i: nat)
    ensures Visits(s, from, i) ==> from <= i
  {
  }

  lemma EscapesNext(s: str, from: nat)
    requires from < |s|
    ensures EscapesHoldNumbers(s, from) <==>
            (s[from] == PERCENT ==> ScanHex(Escape(s, from)).Some?)
            && EscapesHoldNumbers(s, from + if s[from] == PERCENT then 3 else 1)
  {
    hide ScanHex, Escape;
    var next := from + if s[from] == PERCENT then 3 else 1;
    assert Visits(s, from, from);
    forall i | from < i < |s| ensures Visits(s, from, i) <==> next <= i && Visits(s, next, i) {
      VisitsForward(s, next, i);
    }
  }

  lemma NothingToVisit(s: str, from: nat)
    requires from >= |s|
    ensures EscapesHoldNumbers(s, from)
  {
  }

  lemma {:induction false} DefinedFrom(s: str, from: nat)
    ensures Decoded(From(s, from)).Some? <==> EscapesHoldNumbers(s, from)
    decreases |s| - from
  {
    hide ScanHex, Escape, EscapesHoldNumbers;
    if from < |s| {
      DecodedNext(s, from);
      EscapesNext(s, from);
      DefinedFrom(s, from + if s[from] == PERCENT then 3 else 1);
    } else {
      NothingDecoded([], s, from);
      NothingToVisit(s, from);
    }
  }

  /** Decoding is defined exactly when every escape that the scan comes to holds a number. */
  lemma DefinedExactly(s: str)
    ensures Decoded(s).Some? <==> EscapesHoldNumbers(s, 0)
  {
    assert From(s, 0) == s;
    DefinedFrom(s, 0);
  }

  predicate IsHex(c: u8) { HexValue(c).Some? }

  predicate IsBlankOrSign(c: u8) { c == SPACE || 9 <= c <= 13 || c == PLUS || c == MINUS }

  /** An escape holds a number exactly if it is one or two digits, or ends in one after a blank or a sign. */
  lemma HoldsNumber(e: str)
    requires |e| <= 2
    ensures ScanHex(e).Some? <==>
            && e != []
            && if |e| == 1 then IsHex(e[0])
               else (IsHex(e[0]) && e != [48, 120] && e != [48, 88]) || (IsBlankOrSign(e[0]) && IsHex(e[1]))
  {
    if |e| == 2 && IsBlankOrSign(e[0]) {
      assert e[1..] == [e[1]] && [e[1]][1..] == [];
    }
    if |e| >= 1 && (e[0] == SPACE || 9 <= e[0] <= 13) && |e| == 1 { assert e[1..] == []; }
  }

  /** So it is defined wherever two digits follow each percent sign, and undefined on a lone percent sign. */
  lemma DefinedWithDigits(s: str)
    requires forall i :: 0 <= i < |s| && s[i] == PERCENT ==> i + 2 < |s| && IsHex(s[i + 1]) && IsHex(s[i + 2])
    ensures Decoded(s).Some?
  {
    forall i | 0 <= i < |s| && s[i] == PERCENT ensures ScanHex(Escape(s, i)).Some? {
      assert Escape(s, i) == [s[i + 1], s[i + 2]];
      HoldsNumber(Escape(s, i));
    }
    DefinedExactly(s);
  }

  lemma UndefinedExample()
    ensures Decoded([PERCENT]) == None
  {
    assert Escape([PERCENT], 0) == [];
  }

  method UrlDecode(src: str) returns (ret: Option<str>)
    ensures ret == Decoded(src)
    ensures ret.Some? <==> EscapesHoldNumbers(src, 0)
  {
    hide ScanHex, Decoded, Prepend, Escape, EscapesHoldNumbers;
    DefinedExactly(src);
    var out: str := [];
    var i := 0;
    assert src[0..] == src;
    Prepended([], [], Decoded(src));
    while i < |src|
      invariant 0 <= i
      invariant Decoded(src) == Prepend(out, Decoded(From(src, i)))
    {
      DecodedNext(src, i);
      if src[i] == PLUS {
        Prepended(out, [SPACE], Decoded(From(src, i + 1)));
        out := out + [SPACE];
      } else if src[i] == PERCENT {
        var ii := ScanHex(Escape(src, i));
        if ii.None? {
          Prepended(out, [], None);
          return None;
        }
        Prepended(out, [ii.value % 256], Decoded(From(src, i + 3)));
        out := out + [ii.value % 256];
        i := i + 2;
      } else {
        Prepended(out, [src[i]], Decoded(From(src, i + 1)));
        out := out + [src[i]];
      }
      i := i + 1;
    }
    NothingDecoded(out, src, i);
    ret := Some(out);
  }

  lemma DecodeByte(c: u8, rest: str)
    ensures Decoded(EncodedByte(c) + rest) == Prepend([c], Decoded(rest))
  {
    var s := EncodedByte(c) + rest;
    if Unreserved(c) {
      assert s[1..] == rest;
    } else {
      assert s[3..] == rest;
      assert Escape(s, 0) == [HexDigit(c / 16), HexDigit(c % 16)];
    }
  }

  /** Every byte string survives encoding and decoding. */
  lemma {:induction false} RoundTrip(s: str)
    ensures Decoded(Encoded(s)) == Some(s)
  {
    if s == [] {
    } else {
      RoundTrip(s[1..]);
      DecodeByte(s[0], Encoded(s[1..]));
      assert s == [s[0]] + s[1..];
    }
  }

  /** An encoded string holds only unreserved characters and the percent sign. */
  lemma {:induction false} EncodedAlphabet(s: str)
    ensures forall x :: x in Encoded(s) ==> Unreserved(x) || x == PERCENT
  {
    if s == [] {
    } else {
      EncodedAlphabet(s[1..]);
    }
  }

  // The dump of a map

  datatype Item = Item(name: str, value: str)

  /** The entries that are written: those with a value. */
  function NonEmpty(items: seq<Item>): seq<Item> {
    if items == [] then []
    else (if |items[0].value| > 0 then [items[0]] else []) + NonEmpty(items[1..])
  }

  function Field(e: Item): str {
    Encoded(e.name) + [EQUALS] + Encoded(e.value)
  }

  function Joined(items: seq<Item>): str {
    if items == [] then []
    else if |items| == 1 then Field(items[0])
    else Field(items[0]) + [AMPERSAND] + Joined(items[1..])
  }

  lemma {:induction false} JoinedSnoc(items: seq<Item>, e: Item)
    ensures Joined(items + [e]) == if items == [] then Field(e) else Joined(items) + [AMPERSAND] + Field(e)
  {
    if |items| > 0 {
      JoinedSnoc(items[1..], e);
      assert (items + [e])[1..] == items[1..] + [e];
    }
  }

  lemma Associates<T>(a: seq<T>, b: seq<T>, c: seq<T>)
    ensures a + (b + c) == (a + b) + c
  {
  }

  lemma {:induction false} NonEmptySnoc(items: seq<Item>, e: Item)
    ensures NonEmpty(items + [e]) == if |e.value| > 0 then NonEmpty(items) + [e] else NonEmpty(items)
  {
    var all := items + [e];
    if items == [] {
      assert all == [e] && all[1..] == [];
    } else {
      var first, rest := if |items[0].value| > 0 then [items[0]] else [], items[1..];
      assert all[1..] == rest + [e] && all[0] == items[0];
      assert NonEmpty(all) == first + NonEmpty(rest + [e]) && NonEmpty(items) == first + NonEmpty(rest);
      NonEmptySnoc(rest, e);
      hide NonEmpty;
      Associates(first, NonEmpty(rest), [e]);
    }
  }

  lemma NothingJoined()
    ensures NonEmpty([]) == [] && Joined([]) == []
  {
  }

  lemma AppendField(os: str, e: Item)
    ensures os + Encoded(e.name) + [EQUALS] + Encoded(e.value) == os + Field(e)
    ensures os == [] ==> os + Field(e) == Field(e)
  {
    hide Encoded;
  }

  lemma DumpNext(m: seq<Item>, i: nat)
    requires i < |m|
    ensures var before, after := NonEmpty(m[..i]), NonEmpty(m[..i + 1]);
            if |m[i].value| == 0 then after == before
            else after != []
                 && Joined(after) == if before == [] then Field(m[i]) else Joined(before) + [AMPERSAND] + Field(m[i])
  {
    hide Encoded, Joined, NonEmpty, Field;
    assert m[..i + 1] == m[..i] + [m[i]];
    NonEmptySnoc(m[..i], m[i]);
    JoinedSnoc(NonEmpty(m[..i]), m[i]);
  }

  method DumpMapHtml(m: seq<Item>) returns (os: str)
    ensures os == Joined(NonEmpty(m))
  {
    hide Encoded, Joined, NonEmpty, Field;
    NothingJoined();
    os := [];
    var notFirst := false;
    var i := 0;
    while i < |m|
      invariant 0 <= i <= |m|
      invariant os == Joined(NonEmpty(m[..i])) && (notFirst <==> NonEmpty(m[..i]) != [])
    {
      DumpNext(m, i);
      if |m[i].value| > 0 {
        var name := UrlEncode(m[i].name);
        var value := UrlEncode(m[i].value);
        if notFirst { os := os + [AMPERSAND]; }
        AppendField(os, m[i]);
        os := os + name + [EQUALS] + value;
        notFirst := true;
      }
      i := i + 1;
    }
    assert m[..i] == m;
  }

  /** One field of a dump read back, if it is well-formed. */
  function ParseField(f: str): Option<Item> {
    var k := Find(f, EQUALS, 0);
    if k.None? then None
    else
      var name, value := Decoded(f[..k.value]), Decoded(f[k.value + 1..]);
      if name.None? || value.None? then None else Some(Item(name.value, value.value))
  }

  /** A dump read back: split at & and =, and decoded. */
  function ParseDump(s: str): seq<Option<Item>> {
    if s == [] then []
    else
      var ps := Split(s, AMPERSAND);
      seq(|ps|, i requires 0 <= i < |ps| => ParseField(ps[i]))
  }

  lemma FieldParts(name: str, value: str)
    requires EQUALS !in name
    ensures Find(name + [EQUALS] + value, EQUALS, 0) == Some(|name|)
    ensures (name + [EQUALS] + value)[..|name|] == name && (name + [EQUALS] + value)[|name| + 1..] == value
  {
    var f := name + [EQUALS] + value;
    assert f[0..|name|] == name;
    FindIs(f, EQUALS, 0, |name|);
  }

  lemma FieldReadBack(e: Item)
    ensures ParseField(Field(e)) == Some(e)
    ensures AMPERSAND !in Field(e)
  {
    hide Encoded, Decoded, Find;
    EncodedAlphabet(e.name);
    EncodedAlphabet(e.value);
    RoundTrip(e.name);
    RoundTrip(e.value);
    FieldParts(Encoded(e.name), Encoded(e.value));
  }

  lemma {:induction false} SplitJoined(items: seq<Item>)
    requires items != []
    ensures |Split(Joined(items), AMPERSAND)| == |items|
    ensures forall i :: 0 <= i < |items| ==> Split(Joined(items), AMPERSAND)[i] == Field(items[i])
  {
    FieldReadBack(items[0]);
    if |items| == 1 {
      SplitNone(Field(items[0]), AMPERSAND);
    } else {
      SplitJoined(items[1..]);
      SplitFirst(Field(items[0]), AMPERSAND, Joined(items[1..]));
    }
  }

  /** A dump is unambiguous: reading it back gives exactly the entries that have a value, in order. */
  lemma DumpReadBack(m: seq<Item>)
    ensures var items, read := NonEmpty(m), ParseDump(Joined(NonEmpty(m)));
            |read| == |items| && forall i :: 0 <= i < |items| ==> read[i] == Some(items[i])
  {
    var items := NonEmpty(m);
    if items != [] {
      SplitJoined(items);
      assert EQUALS in Field(items[0]) && Joined(items) != [];
      forall i | 0 <= i < |items| ensures ParseField(Field(items[i])) == Some(items[i]) {
        FieldReadBack(items[i]);
      }
    }
  }

  // What is written and read, as numbers

  lemma {:induction false} EncodedConcat(a: str, b: str)
    ensures Encoded(a + b) == Encoded(a) + Encoded(b)
  {
    if a == [] {
      assert a + b == b;
    } else {
      EncodedConcat(a[1..], b);
      assert (a + b)[1..] == a[1..] + b;
      hide EncodedByte;
      Associates(EncodedByte(a[0]), Encoded(a[1..]), Encoded(b));
    }
  }

  /** Digits, letters, and four marks are written as they are. */
  lemma {:induction false} KeptAsItIs(s: str)
    requires forall i :: 0 <= i < |s| ==>
               48 <= s[i] <= 57 || 65 <= s[i] <= 90 || 97 <= s[i] <= 122 || s[i] in {45, 46, 95, 126}
    ensures Encoded(s) == s
  {
    if s == [] {
    } else {
      KeptAsItIs(s[1..]);
      assert EncodedByte(s[0]) == [s[0]];
      assert s == [s[0]] + s[1..];
    }
  }

  /** The hexadecimal digits in either case, and their values. */
  lemma HexDigits(d: u8)
    ensures IsHex(d) <==> 48 <= d <= 57 || 65 <= d <= 70 || 97 <= d <= 102
    ensures IsHex(d) ==> HexValue(d).value == if d <= 57 then d - 48 else if d <= 70 then d - 55 else d - 87
  {
  }

  /** Any other byte is written as a percent sign and two lower-case digits of its value. */
  lemma OthersEscaped(c: u8)
    requires !(48 <= c <= 57 || 65 <= c <= 90 || 97 <= c <= 122 || c in {45, 46, 95, 126})
    ensures var e := Encoded([c]);
            && |e| == 3 && e[0] == 37
            && (48 <= e[1] <= 57 || 97 <= e[1] <= 102) && (48 <= e[2] <= 57 || 97 <= e[2] <= 102)
            && c == 16 * HexValue(e[1]).value + HexValue(e[2]).value
  {
    assert [c][1..] == [] && EncodedByte(c) + [] == EncodedByte(c);
  }

  /** The number that an escape holds. */
  lemma EscapeValue(e: str)
    requires 1 <= |e| <= 2
    ensures |e| == 1 && IsHex(e[0]) ==> ScanHex(e) == Some(HexValue(e[0]).value)
    ensures |e| == 2 && IsHex(e[0]) && IsHex(e[1]) ==>
              ScanHex(e) == Some(16 * HexValue(e[0]).value + HexValue(e[1]).value)
    ensures |e| == 2 && IsHex(e[0]) && !IsHex(e[1]) && e != [48, 120] && e != [48, 88] ==>
              ScanHex(e) == Some(HexValue(e[0]).value)
    ensures |e| == 2 && (9 <= e[0] <= 13 || e[0] in {32, 43}) && IsHex(e[1]) ==>
              ScanHex(e) == Some(HexValue(e[1]).value)
    ensures |e| == 2 && e[0] == 45 && IsHex(e[1]) ==> ScanHex(e).Some? && ScanHex(e).value + HexValue(e[1]).value == 0
  {
    if |e| == 2 { assert e[1..] == [e[1]]; }
  }

  /** A plus sign is read as a blank, an escape as the byte of its number, and anything else as it is. */
  lemma DecodedFirst(c: u8, rest: str)
    requires Decoded(rest).Some?
    ensures c != 37 ==> Decoded([c] + rest) == Some([if c == 43 then 32 else c] + Decoded(rest).value)
  {
    assert ([c] + rest)[1..] == rest;
  }

  lemma DecodedEscape(d: u8, e: u8, rest: str)
    requires Decoded(rest).Some? && ScanHex([d, e]).Some?
    ensures Decoded([37, d, e] + rest) == Some([ScanHex([d, e]).value % 256] + Decoded(rest).value)
  {
    var s := [37, d, e] + rest;
    assert s[3..] == rest && Escape(s, 0) == [d, e];
  }

  /** An escape cut short by the end of the string. */
  lemma DecodedCut(d: u8)
    requires IsHex(d)
    ensures Decoded([37, d]) == Some([HexValue(d).value])
  {
    var s := [37, d];
    assert s[0] == PERCENT && Escape(s, 0) == [d];
    EscapeValue([d]);
    hide ScanHex, Escape;
    assert Decoded([]) == Some([]) && [HexValue(d).value % 256] + [] == [HexValue(d).value];
    assert Decoded(s) == Some([HexValue(d).value % 256] + []);
  }

  /** One field of a dump: name, equals sign, value. */
  lemma DumpOfOne(e: Item)
    ensures Joined([e]) == Encoded(e.name) + [61] + Encoded(e.value)
  {
    hide Encoded;
  }

  /** Dumps are put together with an ampersand. */
  lemma {:induction false} DumpOfMore(a: seq<Item>, b: seq<Item>)
    requires a != [] && b != []
    ensures Joined(a + b) == Joined(a) + [38] + Joined(b)
  {
    assert (a + b)[1..] == a[1..] + b;
    if |a| == 1 {
      assert a[1..] + b == b;
      hide Field;
    } else {
      DumpOfMore(a[1..], b);
      var f, ja, jb := Field(a[0]), Joined(a[1..]), Joined(b);
      assert Joined(a + b) == f + [AMPERSAND] + (ja + [38] + jb) by { hide Field; }
      assert Joined(a) == f + [AMPERSAND] + ja by { hide Field; }
      hide Joined, Field;
      Associates(f + [AMPERSAND], ja + [38], jb);
      Associates(f + [AMPERSAND], ja, [38]);
    }
  }
}
