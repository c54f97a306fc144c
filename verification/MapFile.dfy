/** Saving and loading a map of strings (saveloadmap.cpp:19-86). */
module MapFile {
  import opened Bits
  import opened Common
  import opened Text
  import opened Percent

  /** What is written of a C string: up to its first NUL. */
  function CStr(s: str): str {
    var k := Find(s, NUL, 0);
    if k.None? then s else s[..k.value]
  }

  /** An entry as it is written, without the closing semicolon. */
  function Body(e: Item): str {
    [LBRACE] + CStr(e.name) + [RBRACE, SPACE, EQUALS, SPACE, LBRACE] + CStr(e.value) + [RBRACE]
  }

  function Saved(m: seq<Item>): str {
    if m == [] then []
    else (if |m[0].value| > 0 then Body(m[0]) + [SEMICOLON] + [NEWLINE] else []) + Saved(m[1..])
  }

  lemma SavedNext(m: seq<Item>, i: nat)
    requires i <= |m|
    ensures i == 0 ==> [] + Saved(m[i..]) == Saved(m)
    ensures i == |m| ==> Saved(m[i..]) == []
    ensures i < |m| ==> Saved(m[i..]) ==
                        if |m[i].value| > 0 then Body(m[i]) + [SEMICOLON] + [NEWLINE] + Saved(m[i + 1..])
                        else Saved(m[i + 1..])
  {
    if i == 0 { assert m[0..] == m; }
    if i < |m| { assert m[i..][1..] == m[i + 1..]; }
  }

  lemma Appended4(os: str, e: Item, rest: str)
    ensures os + (Body(e) + [SEMICOLON] + [NEWLINE] + rest) ==
            os + ([LBRACE] + CStr(e.name) + [RBRACE, SPACE, EQUALS, SPACE, LBRACE]) + (CStr(e.value) + [RBRACE]) +
            ([SEMICOLON] + [NEWLINE]) + rest
  {
  }

  method SaveMap(params: seq<Item>) returns (os: str)
    ensures os == Saved(params)
  {
    hide Saved, CStr;
    os := [];
    SavedNext(params, 0);
    var i := 0;
    while i < |params|
      invariant 0 <= i <= |params|
      invariant os + Saved(params[i..]) == Saved(params)
    {
      SavedNext(params, i);
      if |params[i].value| > 0 {
        Appended4(os, params[i], Saved(params[i + 1..]));
        os := os + ([LBRACE] + CStr(params[i].name) + [RBRACE, SPACE, EQUALS, SPACE, LBRACE]);
        os := os + (CStr(params[i].value) + [RBRACE]);
        os := os + ([SEMICOLON] + [NEWLINE]);
      }
      i := i + 1;
    }
    SavedNext(params, i);
  }

  function Between(line: str, lbN: nat, rbN: nat, lbV: nat, rbV: nat): Item
    requires lbN < |line| && lbV < |line|
  {
    Item(Substr(line, lbN + 1, rbN - lbN - 1), Substr(line, lbV + 1, rbV - lbV - 1))
  }

  /** The name and value of a piece of the file, if it has them. The braces need not come in order. */
  function ProcessLine(line: str): Option<Item> {
    var lbN, rbN := Find(line, LBRACE, 0), Find(line, RBRACE, 0);
    if lbN.None? || rbN.None? then None
    else
      var lbV, rbV := Find(line, LBRACE, rbN.value + 1), RFind(line, RBRACE);
      if lbV.None? || rbV.None? || lbV.value > rbV.value then None
      else Some(Between(line, lbN.value, rbN.value, lbV.value, rbV.value))
  }

  /** A map after its entries were assigned in order. */
  function Put(m: map<str, str>, items: seq<Item>): map<str, str>
    decreases |items|
  {
    if items == [] then m else Put(m[items[0].name := items[0].value], items[1..])
  }

  function ItemsOf(pieces: seq<str>): seq<Item> {
    if pieces == [] then []
    else
      var item := ProcessLine(pieces[0]);
      (if item.Some? then [item.value] else []) + ItemsOf(pieces[1..])
  }

  lemma PutNext(m: map<str, str>, piece: str, more: seq<str>)
    ensures var item := ProcessLine(piece);
            var m' := if item.Some? then m[item.value.name := item.value.value] else m;
            Put(m, ItemsOf([piece] + more)) == Put(m', ItemsOf(more)) && ItemsOf([]) == [] && Put(m', []) == m'
  {
    hide ProcessLine;
    var pieces := [piece] + more;
    assert pieces[1..] == more;
    var item := ProcessLine(piece);
    if item.Some? {
      assert ItemsOf(pieces)[0] == item.value && ItemsOf(pieces)[1..] == ItemsOf(more);
    } else {
      assert ItemsOf(pieces) == ItemsOf(more);
    }
  }

  lemma LoadNext(m: map<str, str>, rest: str)
    ensures var k := Find(rest, SEMICOLON, 0);
            var item := ProcessLine(if k.None? then rest else rest[..k.value]);
            var m' := if item.Some? then m[item.value.name := item.value.value] else m;
            Put(m, ItemsOf(Split(rest, SEMICOLON))) ==
            if k.None? then m' else Put(m', ItemsOf(Split(rest[k.value + 1..], SEMICOLON)))
  {
    hide ProcessLine, ItemsOf, Put, Find, Split;
    var k := Find(rest, SEMICOLON, 0);
    SplitNext(rest, SEMICOLON);
    if k.None? {
      PutNext(m, rest, []);
    } else {
      PutNext(m, rest[..k.value], Split(rest[k.value + 1..], SEMICOLON));
    }
  }

  /** Reads the file, if it opened, in pieces that end at a semicolon or at its end. */
  method LoadMap(m0: map<str, str>, file: Option<str>) returns (m: map<str, str>)
    ensures m == if file.None? then m0 else Put(m0, ItemsOf(Split(file.value, SEMICOLON)))
  {
    hide ProcessLine, ItemsOf, Put, Split;
    m := m0;
    var good := file.Some?;
    var rest: str := if file.Some? then file.value else [];
    while good
      invariant file.Some? && good ==>
                  Put(m, ItemsOf(Split(rest, SEMICOLON))) == Put(m0, ItemsOf(Split(file.value, SEMICOLON)))
      invariant file.Some? && !good ==> m == Put(m0, ItemsOf(Split(file.value, SEMICOLON)))
      invariant file.None? ==> !good && m == m0
      decreases good, |rest|
    {
      LoadNext(m, rest);
      var k := Find(rest, SEMICOLON, 0);
      var line: str;
      if k.None? {
        line, good := rest, false;
      } else {
        line, rest := rest[..k.value], rest[k.value + 1..];
      }
      var item := ProcessLine(line);
      if item.Some? { m := m[item.value.name := item.value.value]; }
    }
  }

  // Loading what was saved

  /** A piece of a saved file: what was before its first brace, and an entry. */
  function Piece(p: str, name: str, value: str): str {
    p + [LBRACE] + name + [RBRACE, SPACE, EQUALS, SPACE, LBRACE] + value + [RBRACE]
  }

  predicate NoMarks(p: str) {
    LBRACE !in p && RBRACE !in p && SEMICOLON !in p
  }

  /** Where things are in a piece. */
  lemma PieceParts(p: str, name: str, value: str, lb: nat, rb: nat, end: nat)
    requires lb == |p| && rb == lb + 1 + |name| && end == rb + 5 + |value|
    ensures |Piece(p, name, value)| == end + 1
    ensures Piece(p, name, value)[0..lb] == p && Piece(p, name, value)[lb] == LBRACE
    ensures Piece(p, name, value)[lb + 1..rb] == name && Piece(p, name, value)[rb] == RBRACE
    ensures Piece(p, name, value)[0..rb] == p + [LBRACE] + name
    ensures Piece(p, name, value)[rb + 1..rb + 4] == [SPACE, EQUALS, SPACE] && Piece(p, name, value)[rb + 4] == LBRACE
    ensures Piece(p, name, value)[rb + 5..end] == value && Piece(p, name, value)[end] == RBRACE
  {
  }

  lemma BetweenIs(s: str, lb: nat, rb: nat, lbV: nat, end: nat)
    requires lb < rb < |s| && lbV < end < |s|
    ensures Between(s, lb, rb, lbV, end) == Item(s[lb + 1..rb], s[lbV + 1..end])
  {
  }

  /** An entry is read back from its piece, braces in its value included, unless its name has a closing brace. */
  lemma PieceReadBack(p: str, name: str, value: str)
    requires NoMarks(p) && RBRACE !in name
    ensures ProcessLine(Piece(p, name, value)) == Some(Item(name, value))
  {
    hide Find, RFind, Piece, Between;
    var s := Piece(p, name, value);
    var lb, rb := |p|, |p| + 1 + |name|;
    var end := rb + 5 + |value|;
    PieceParts(p, name, value, lb, rb, end);
    FindIs(s, LBRACE, 0, lb);
    assert RBRACE !in p + [LBRACE] + name;
    FindIs(s, RBRACE, 0, rb);
    FindIs(s, LBRACE, rb + 1, rb + 4);
    assert s[end + 1..] == [];
    RFindIs(s, RBRACE, end);
    assert ProcessLine(s) == Some(Between(s, lb, rb, rb + 4, end)) by { hide Between; }
    BetweenIs(s, lb, rb, rb + 4, end);
  }

  lemma NameOf(s: str)
    requires ProcessLine(s).Some?
    ensures Find(s, LBRACE, 0).Some? && Find(s, RBRACE, 0).Some?
    ensures Find(s, LBRACE, 0).value < Find(s, RBRACE, 0).value ==>
              ProcessLine(s).value.name == s[Find(s, LBRACE, 0).value + 1..Find(s, RBRACE, 0).value]
  {
    hide Find, RFind;
  }

  lemma FirstAfter(s: str, c: u8, k: nat, i: nat)
    requires k < |s| && s[k] != c && c !in s[0..k]
    requires i < |s| && s[i] == c && c !in s[0..i]
    ensures k < i && c !in s[k + 1..i]
  {
    forall j | 0 <= j < k ensures s[j] != c { assert s[0..k][j] == s[j]; }
    forall j | k < j < i ensures s[j] != c { assert s[0..i][j] == s[j]; }
  }

  /** The name read from a piece always ends at the first closing brace. */
  lemma NameEndsAtBrace(p: str, name: str, value: str)
    requires NoMarks(p) && ProcessLine(Piece(p, name, value)).Some?
    ensures RBRACE !in ProcessLine(Piece(p, name, value)).value.name
  {
    hide Find, RFind, Piece, ProcessLine;
    var s := Piece(p, name, value);
    PieceParts(p, name, value, |p|, |p| + 1 + |name|, |p| + 6 + |name| + |value|);
    FindIs(s, LBRACE, 0, |p|);
    NameOf(s);
    var rb := Find(s, RBRACE, 0).value;
    FirstAfter(s, RBRACE, |p|, rb);
  }

  lemma {:induction false} ItemBytes(pieces: seq<str>, k: nat, x: u8)
    requires k < |ItemsOf(pieces)| && (x in ItemsOf(pieces)[k].name || x in ItemsOf(pieces)[k].value)
    ensures exists i :: 0 <= i < |pieces| && x in pieces[i]
  {
    var item, rest := ProcessLine(pieces[0]), ItemsOf(pieces[1..]);
    if item.Some? && k == 0 {
      assert x in pieces[0];
    } else {
      var k' := if item.Some? then k - 1 else k;
      assert ItemsOf(pieces)[k] == rest[k'];
      ItemBytes(pieces[1..], k', x);
      var i :| 0 <= i < |pieces[1..]| && x in pieces[1..][i];
      assert pieces[i + 1] == pieces[1..][i];
    }
  }

  /** No separator gets into a loaded entry, and nothing that is not in the file. */
  lemma LoadedBytes(s: str, k: nat, x: u8)
    requires k < |ItemsOf(Split(s, SEMICOLON))|
    requires x in ItemsOf(Split(s, SEMICOLON))[k].name || x in ItemsOf(Split(s, SEMICOLON))[k].value
    ensures x in s && x != SEMICOLON
  {
    ItemBytes(Split(s, SEMICOLON), k, x);
    var i :| 0 <= i < |Split(s, SEMICOLON)| && x in Split(s, SEMICOLON)[i];
    SplitPieces(s, SEMICOLON, i, x);
  }

  lemma CStrOf(s: str)
    ensures NUL !in CStr(s)
    ensures NUL !in s ==> CStr(s) == s
  {
    var k := Find(s, NUL, 0);
    if k.Some? { assert s[..k.value] == s[0..k.value]; } else { assert s[0..] == s; }
  }

  lemma {:induction false} SavedHasNoNul(m: seq<Item>)
    ensures NUL !in Saved(m)
  {
    hide CStr;
    if m != [] {
      SavedHasNoNul(m[1..]);
      CStrOf(m[0].name);
      CStrOf(m[0].value);
    }
  }

  /** An entry that can be told apart from the rest of the file. */
  predicate NoSeparators(e: Item) {
    SEMICOLON !in e.name && NUL !in e.name && SEMICOLON !in e.value && NUL !in e.value
  }

  predicate Clean(e: Item) {
    NoSeparators(e) && RBRACE !in e.name
  }

  lemma PiecePrefix(p: str, e: Item)
    requires CStr(e.name) == e.name && CStr(e.value) == e.value
    ensures p + Body(e) == Piece(p, e.name, e.value)
  {
    hide CStr;
  }

  lemma Regroup(p: str, body: str, piece: str, more: str)
    requires p + body == piece
    ensures p + (body + [SEMICOLON] + [NEWLINE] + more) == piece + [SEMICOLON] + ([NEWLINE] + more)
  {
  }

  lemma SavedFirst(p: str, m: seq<Item>)
    requires m != [] && |m[0].value| > 0 && NoSeparators(m[0])
    ensures p + Saved(m) == Piece(p, m[0].name, m[0].value) + [SEMICOLON] + ([NEWLINE] + Saved(m[1..]))
  {
    hide Find, CStr;
    CStrOf(m[0].name);
    CStrOf(m[0].value);
    var more := Saved(m[1..]);
    assert Saved(m) == Body(m[0]) + [SEMICOLON] + [NEWLINE] + more by { hide Body; }
    PiecePrefix(p, m[0]);
    Regroup(p, Body(m[0]), Piece(p, m[0].name, m[0].value), more);
  }

  lemma PieceHasNoSeparator(p: str, e: Item)
    requires NoMarks(p) && NoSeparators(e)
    ensures SEMICOLON !in Piece(p, e.name, e.value)
  {
  }

  /** The pieces of a saved file, when no separators are in the way. */
  lemma SavedPieces(p: str, m: seq<Item>)
    requires NoMarks(p) && m != [] && |m[0].value| > 0 && NoSeparators(m[0])
    ensures Split(p + Saved(m), SEMICOLON) ==
            [Piece(p, m[0].name, m[0].value)] + Split([NEWLINE] + Saved(m[1..]), SEMICOLON)
  {
    hide Split, Saved, Piece;
    SavedFirst(p, m);
    PieceHasNoSeparator(p, m[0]);
    SplitFirst(Piece(p, m[0].name, m[0].value), SEMICOLON, [NEWLINE] + Saved(m[1..]));
  }

  lemma ItemsOfNext(pieces: seq<str>, more: seq<str>, piece: str)
    requires pieces == [piece] + more
    ensures ItemsOf(pieces) == (if ProcessLine(piece).Some? then [ProcessLine(piece).value] else []) + ItemsOf(more)
  {
    assert pieces[1..] == more;
  }

  lemma NothingSaved(p: str)
    requires NoMarks(p)
    ensures ItemsOf(Split(p + [], SEMICOLON)) == []
  {
    assert p + [] == p;
    SplitNone(p, SEMICOLON);
    assert p[0..] == p;
    assert ProcessLine(p).None?;
  }

  lemma {:induction false} CleanReadBack(p: str, m: seq<Item>)
    requires NoMarks(p)
    requires forall i :: 0 <= i < |m| && |m[i].value| > 0 ==> Clean(m[i])
    ensures ItemsOf(Split(p + Saved(m), SEMICOLON)) == NonEmpty(m)
    decreases |m|
  {
    hide ProcessLine, Split, Piece;
    if m == [] {
      NothingSaved(p);
    } else if |m[0].value| == 0 {
      assert Saved(m) == Saved(m[1..]) && NonEmpty(m) == NonEmpty(m[1..]);
      CleanReadBack(p, m[1..]);
    } else {
      SavedPieces(p, m);
      PieceReadBack(p, m[0].name, m[0].value);
      var piece := Piece(p, m[0].name, m[0].value);
      ItemsOfNext(Split(p + Saved(m), SEMICOLON), Split([NEWLINE] + Saved(m[1..]), SEMICOLON), piece);
      CleanReadBack([NEWLINE], m[1..]);
    }
  }

  ghost predicate NoBraces(items: seq<Item>) {
    forall k :: 0 <= k < |items| ==> RBRACE !in items[k].name
  }

  lemma NoBracesNext(item: Option<Item>, items: seq<Item>)
    requires (item.Some? ==> RBRACE !in item.value.name) && NoBraces(items)
    ensures NoBraces((if item.Some? then [item.value] else []) + items)
  {
  }

  /** No entry with a value has a separator in it. */
  ghost predicate AllApart(m: seq<Item>) {
    forall i :: 0 <= i < |m| && |m[i].value| > 0 ==> NoSeparators(m[i])
  }

  lemma ApartNext(m: seq<Item>)
    requires AllApart(m) && m != []
    ensures (|m[0].value| > 0 ==> NoSeparators(m[0])) && AllApart(m[1..])
  {
    hide NoSeparators;
  }

  lemma NoBraceFirst(p: str, m: seq<Item>)
    requires NoMarks(p) && m != [] && |m[0].value| > 0 && NoSeparators(m[0])
    requires NoBraces(ItemsOf(Split([NEWLINE] + Saved(m[1..]), SEMICOLON)))
    ensures NoBraces(ItemsOf(Split(p + Saved(m), SEMICOLON)))
  {
    hide ProcessLine, Split, Piece, NoSeparators, Saved, ItemsOf, NoBraces;
    var piece := Piece(p, m[0].name, m[0].value);
    var more := Split([NEWLINE] + Saved(m[1..]), SEMICOLON);
    SavedPieces(p, m);
    ItemsOfNext(Split(p + Saved(m), SEMICOLON), more, piece);
    if ProcessLine(piece).Some? { NameEndsAtBrace(p, m[0].name, m[0].value); }
    NoBracesNext(ProcessLine(piece), ItemsOf(more));
  }

  /** Without separators in the way, no name that is loaded from a saved file has a closing brace. */
  lemma {:induction false} NoBraceInNames(p: str, m: seq<Item>)
    requires NoMarks(p) && AllApart(m)
    ensures NoBraces(ItemsOf(Split(p + Saved(m), SEMICOLON)))
    decreases |m|
  {
    hide ProcessLine, Split, Piece, NoSeparators, AllApart, ItemsOf;
    if m == [] {
      NothingSaved(p);
    } else {
      assert |m[0].value| == 0 ==> Saved(m) == Saved(m[1..]);
      hide Saved, NoBraces;
      ApartNext(m);
      if |m[0].value| == 0 {
        NoBraceInNames(p, m[1..]);
      } else {
        NoBraceInNames([NEWLINE], m[1..]);
        NoBraceFirst(p, m);
      }
    }
  }

  ghost predicate Distinct(m: seq<Item>) {
    forall i, j :: 0 <= i < j < |m| ==> m[i].name != m[j].name
  }

  /** Every entry of a map filled from items is one of them, or was there before. */
  lemma {:induction false} PutFrom(m: map<str, str>, items: seq<Item>, name: str)
    requires name in Put(m, items)
    ensures (name in m && Put(m, items)[name] == m[name])
            || exists k :: 0 <= k < |items| && items[k] == Item(name, Put(m, items)[name])
    decreases |items|
  {
    if items == [] {
    } else {
      var m', rest := m[items[0].name := items[0].value], items[1..];
      PutFrom(m', rest, name);
      if !(name in m' && Put(m, items)[name] == m'[name]) {
        var k :| 0 <= k < |rest| && rest[k] == Item(name, Put(m, items)[name]);
        assert items[k + 1] == rest[k];
      } else if name == items[0].name {
        assert items[0] == Item(name, Put(m, items)[name]);
      }
    }
  }

  lemma {:induction false} PutKeeps(m: map<str, str>, items: seq<Item>, name: str)
    requires name in m && forall k :: 0 <= k < |items| ==> items[k].name != name
    ensures name in Put(m, items) && Put(m, items)[name] == m[name]
    decreases |items|
  {
    if items == [] {
    } else {
      PutKeeps(m[items[0].name := items[0].value], items[1..], name);
    }
  }

  /** With distinct names every item is in the map. */
  lemma {:induction false} PutHas(m: map<str, str>, items: seq<Item>, k: nat)
    requires Distinct(items) && k < |items|
    ensures items[k].name in Put(m, items) && Put(m, items)[items[k].name] == items[k].value
    decreases |items|
  {
    var m', rest := m[items[0].name := items[0].value], items[1..];
    if k == 0 {
      PutKeeps(m', rest, items[0].name);
    } else {
      PutHas(m', rest, k - 1);
    }
  }

  lemma NonEmptyNext(m: seq<Item>)
    requires m != []
    ensures NonEmpty(m) == if |m[0].value| > 0 then [m[0]] + NonEmpty(m[1..]) else NonEmpty(m[1..])
  {
  }

  lemma {:induction false} NonEmptyKeepsNames(m: seq<Item>, k: nat)
    requires k < |NonEmpty(m)|
    ensures exists i :: 0 <= i < |m| && m[i] == NonEmpty(m)[k]
  {
    assert m != [];
    hide NonEmpty;
    NonEmptyNext(m);
    if |m[0].value| > 0 && k == 0 {
      assert m[0] == NonEmpty(m)[k];
    } else {
      var k' := if |m[0].value| > 0 then k - 1 else k;
      NonEmptyKeepsNames(m[1..], k');
      var i :| 0 <= i < |m[1..]| && m[1..][i] == NonEmpty(m[1..])[k'];
      assert m[i + 1] == NonEmpty(m)[k];
    }
  }

  lemma {:induction false} NonEmptyKeepsDistinct(m: seq<Item>)
    requires Distinct(m)
    ensures Distinct(NonEmpty(m))
  {
    if m == [] {
    } else {
      hide NonEmpty;
      var rest := m[1..];
      NonEmptyKeepsDistinct(rest);
      NonEmptyNext(m);
      forall k | 0 <= k < |NonEmpty(rest)| ensures NonEmpty(rest)[k].name != m[0].name {
        NonEmptyKeepsNames(rest, k);
        var i :| 0 <= i < |rest| && rest[i] == NonEmpty(rest)[k];
        assert rest[i] == m[i + 1];
      }
    }
  }

  lemma {:induction false} NonEmptyHas(m: seq<Item>, i: nat) returns (k: nat)
    requires i < |m| && |m[i].value| > 0
    ensures k < |NonEmpty(m)| && NonEmpty(m)[k] == m[i]
  {
    hide NonEmpty;
    NonEmptyNext(m);
    if i == 0 {
      k := 0;
    } else {
      k := NonEmptyHas(m[1..], i - 1);
      if |m[0].value| > 0 { k := k + 1; }
    }
  }

  /** If loading recovers the entries, each entry with a value was loaded from the file as it is. */
  lemma Recovered(m: seq<Item>, i: nat) returns (k: nat)
    requires Distinct(m) && i < |m| && |m[i].value| > 0
    requires Put(map[], ItemsOf(Split(Saved(m), SEMICOLON))) == Put(map[], NonEmpty(m))
    ensures k < |ItemsOf(Split(Saved(m), SEMICOLON))| && ItemsOf(Split(Saved(m), SEMICOLON))[k] == m[i]
  {
    hide ItemsOf, Split, Saved, NonEmpty, Put;
    NonEmptyKeepsDistinct(m);
    var j := NonEmptyHas(m, i);
    PutHas(map[], NonEmpty(m), j);
    var items := ItemsOf(Split(Saved(m), SEMICOLON));
    PutFrom(map[], items, m[i].name);
    k :| 0 <= k < |items| && items[k] == Item(m[i].name, Put(map[], items)[m[i].name]);
  }

  /**
   Loading a saved map recovers exactly its entries that have a value, if and only if no such entry has a semicolon
   or a NUL in it, or a closing brace in its name. Braces in values are allowed.
   */
  lemma RoundTripExactly(m: seq<Item>)
    requires Distinct(m)
    ensures Put(map[], ItemsOf(Split(Saved(m), SEMICOLON))) == Put(map[], NonEmpty(m))
            <==> forall i :: 0 <= i < |m| && |m[i].value| > 0 ==> Clean(m[i])
  {
    hide ItemsOf, Split, Saved, NonEmpty, Put;
    assert [] + Saved(m) == Saved(m);
    if forall i :: 0 <= i < |m| && |m[i].value| > 0 ==> Clean(m[i]) {
      CleanReadBack([], m);
    }
    if Put(map[], ItemsOf(Split(Saved(m), SEMICOLON))) == Put(map[], NonEmpty(m)) {
      SavedHasNoNul(m);
      forall i | 0 <= i < |m| && |m[i].value| > 0 ensures NoSeparators(m[i]) {
        var k := Recovered(m, i);
        forall x | x in m[i].name || x in m[i].value ensures x != SEMICOLON && x != NUL {
          LoadedBytes(Saved(m), k, x);
        }
      }
      forall i | 0 <= i < |m| && |m[i].value| > 0 ensures Clean(m[i]) {
        var k := Recovered(m, i);
        NoBraceInNames([], m);
      }
    }
  }

  // What is written and read, as numbers

  /** A C string ends at its first NUL. */
  lemma CutAtNul(a: str, b: str)
    requires 0 !in a
    ensures CStr(a + [0] + b) == a
  {
    var s := a + [0] + b;
    assert s[0..|a|] == a;
    FindIs(s, NUL, 0, |a|);
    hide Find;
    assert s[..|a|] == a;
  }

  /** What an entry adds to a saved file. */
  function SavedEntry(e: Item): str {
    if |e.value| > 0 then Body(e) + [SEMICOLON] + [NEWLINE] else []
  }

  lemma SavedStep(e: Item, m: seq<Item>)
    ensures Saved([e] + m) == SavedEntry(e) + Saved(m)
  {
    hide Body;
    assert ([e] + m)[1..] == m;
  }

  lemma SavedStart()
    ensures Saved([]) == []
  {
  }

  lemma {:induction false} SavedConcat(a: seq<Item>, b: seq<Item>)
    ensures Saved(a + b) == Saved(a) + Saved(b)
  {
    hide Saved, SavedEntry;
    if a == [] {
      SavedStart();
      assert a + b == b && [] + Saved(b) == Saved(b);
    } else {
      var e, rest := a[0], a[1..];
      SavedConcat(rest, b);
      assert a + b == [e] + (rest + b) && a == [e] + rest;
      SavedStep(e, rest + b);
      SavedStep(e, rest);
      Associates(SavedEntry(e), Saved(rest), Saved(b));
    }
  }

  /** The line of an entry without NUL: `{name} = {value};` and a line feed; nothing if it has no value. */
  lemma SavedLine(e: Item)
    requires 0 !in e.name && 0 !in e.value
    ensures Saved([e]) == if |e.value| == 0 then []
                          else [123] + e.name + [125, 32, 61, 32, 123] + e.value + [125, 59, 10]
  {
    CStrOf(e.name);
    CStrOf(e.value);
    hide CStr;
    assert [e][1..] == [];
  }

  lemma LineParts(p: str, name: str, q: str, value: str, r: str, lb: nat, rb: nat, lbV: nat, end: nat)
    requires lb == |p| && rb == lb + 1 + |name| && lbV == rb + 1 + |q| && end == lbV + 1 + |value|
    ensures var s := p + [123] + name + [125] + q + [123] + value + [125] + r;
            && |s| == end + 1 + |r| && s[lb] == 123 && s[rb] == 125 && s[lbV] == 123 && s[end] == 125
            && s[0..lb] == p && s[lb + 1..rb] == name && s[rb + 1..lbV] == q && s[lbV + 1..end] == value
            && s[end + 1..] == r && s[0..rb] == p + [123] + name
  {
  }

  lemma ReadBetween(s: str, lb: nat, rb: nat, lbV: nat, end: nat)
    requires lb < |s| && rb < |s| && lbV < end < |s|
    requires Find(s, LBRACE, 0) == Some(lb) && Find(s, RBRACE, 0) == Some(rb)
    requires Find(s, LBRACE, rb + 1) == Some(lbV) && RFind(s, RBRACE) == Some(end)
    ensures ProcessLine(s) == Some(Between(s, lb, rb, lbV, end))
  {
    hide Find, RFind, Between;
  }

  /** A line is read by its braces: the first of each, the next opening one, and the last closing one. */
  lemma LineRead(p: str, name: str, q: str, value: str, r: str)
    requires 123 !in p && 125 !in p && 125 !in name && 123 !in q && 125 !in r
    ensures ProcessLine(p + [123] + name + [125] + q + [123] + value + [125] + r) == Some(Item(name, value))
  {
    hide Find, RFind, Between, ProcessLine;
    var s := p + [123] + name + [125] + q + [123] + value + [125] + r;
    var lb, rb := |p|, |p| + 1 + |name|;
    var lbV := rb + 1 + |q|;
    var end := lbV + 1 + |value|;
    LineParts(p, name, q, value, r, lb, rb, lbV, end);
    FindIs(s, LBRACE, 0, lb);
    FindIs(s, RBRACE, 0, rb);
    FindIs(s, LBRACE, rb + 1, lbV);
    RFindIs(s, RBRACE, end);
    ReadBetween(s, lb, rb, lbV, end);
    BetweenIs(s, lb, rb, lbV, end);
  }

  lemma ClosedFirstParts(p: str, q: str, value: str, r: str, rb: nat, lb: nat, end: nat)
    requires rb == |p| && lb == rb + 1 + |q| && end == lb + 1 + |value|
    ensures var s := p + [125] + q + [123] + value + [125] + r;
            && |s| == end + 1 + |r| && s[rb] == 125 && s[lb] == 123 && s[end] == 125
            && s[0..rb] == p && s[rb + 1..lb] == q && s[0..lb] == p + [125] + q && s[end + 1..] == r
            && s[lb + 1..] == value + [125] + r && s[lb + 1..end] == value
  {
  }

  lemma BetweenBackwards(s: str, lb: nat, rb: nat, end: nat)
    requires rb < lb < end < |s|
    ensures Between(s, lb, rb, lb, end) == Item(s[lb + 1..], s[lb + 1..end])
  {
  }

  /** If a closing brace comes first, the name is all that follows the first opening one. */
  lemma LineReadClosedFirst(p: str, q: str, value: str, r: str)
    requires 123 !in p && 125 !in p && 123 !in q && 125 !in r
    ensures ProcessLine(p + [125] + q + [123] + value + [125] + r) == Some(Item(value + [125] + r, value))
  {
    hide Find, RFind, ProcessLine, Between;
    var s := p + [125] + q + [123] + value + [125] + r;
    var rb, lb := |p|, |p| + 1 + |q|;
    var end := lb + 1 + |value|;
    ClosedFirstParts(p, q, value, r, rb, lb, end);
    FindIs(s, LBRACE, 0, lb);
    FindIs(s, RBRACE, 0, rb);
    FindIs(s, LBRACE, rb + 1, lb);
    RFindIs(s, RBRACE, end);
    ReadBetween(s, lb, rb, lb, end);
    BetweenBackwards(s, lb, rb, end);
  }

  /** Nothing is read from a line without a closing brace, */
  lemma LineWithoutClosing(s: str)
    requires 125 !in s
    ensures ProcessLine(s).None?
  {
  }

  /** nor without an opening one after the first closing one, */
  lemma LineWithoutOpening(p: str, q: str)
    requires 125 !in p && 123 !in q
    ensures ProcessLine(p + [125] + q).None?
  {
    var s, rb := p + [125] + q, |p|;
    assert s[0..rb] == p && s[rb + 1..] == q;
    FindIs(s, RBRACE, 0, rb);
    hide Find, RFind;
  }

  /** nor without another closing one behind that. */
  lemma LineWithoutEnd(p: str, q: str, r: str)
    requires 125 !in p && 123 !in q && 125 !in r
    ensures ProcessLine(p + [125] + q + [123] + r).None?
  {
    var s, rb := p + [125] + q + [123] + r, |p|;
    var lbV := rb + 1 + |q|;
    assert s[0..rb] == p && s[rb + 1..lbV] == q && s[lbV + 1..] == r && s[lbV] == 123 && s[rb] == 125;
    FindIs(s, RBRACE, 0, rb);
    FindIs(s, LBRACE, rb + 1, lbV);
    hide Find, RFind;
    var end := RFind(s, RBRACE);
    assert forall k :: lbV < k < |s| ==> s[k] == r[k - lbV - 1];
  }

  /** What is assigned last stays. */
  lemma {:induction false} PutLast(m: map<str, str>, items: seq<Item>, e: Item)
    ensures Put(m, items + [e]) == Put(m, items)[e.name := e.value]
    decreases |items|
  {
    if items == [] {
      assert [e][1..] == [];
    } else {
      PutLast(m[items[0].name := items[0].value], items[1..], e);
      assert (items + [e])[1..] == items[1..] + [e];
    }
  }
}
