/** url/escape.go: percent-encoding and form-urlencoding of byte strings. */
module Escape {
  import opened Utf8

  const SPACE: byte := 32
  const PERCENT: byte := 37
  const PLUS: byte := 43

  /** Which of the bytes below 128 stand for themselves. */
  type Table = t: seq<bool> | |t| == 128 witness seq(128, _ => false)

  predicate InQueryParam(c: int) {
    c == 42 || c == 43 || c == 45 || c == 46 || 48 <= c <= 57 || 65 <= c <= 90 || c == 95 || 97 <= c <= 122
  }

  /** tblEscapeURLQueryParam: letters, digits and * + - . _ ; the plus sign is not escaped. */
  function QueryParam(): (t: Table)
    ensures forall c :: 0 <= c < 128 ==> t[c] == InQueryParam(c)
  {
    seq(128, c => InQueryParam(c))
  }

  predicate IsHex(c: byte) { 48 <= c <= 57 || 97 <= c <= 102 || 65 <= c <= 70 }

  function Unhex(c: byte): (v: byte)
    ensures v < 16
  {
    if 48 <= c <= 57 then c - 48 else if 97 <= c <= 102 then c - 97 + 10 else if 65 <= c <= 70 then c - 65 + 10 else 0
  }

  function UpperHex(v: int): (c: byte)
    requires 0 <= v < 16
    ensures IsHex(c) && Unhex(c) == v
  {
    if v < 10 then 48 + v else 65 + (v - 10)
  }

  predicate Plain(c: byte, table: Table) { c < 128 && table[c] }

  function EscapedByte(c: byte, table: Table, spaceToPlus: bool): Bytes {
    if c == SPACE && spaceToPlus then [PLUS]
    else if Plain(c, table) then [c]
    else [PERCENT, UpperHex(c / 16), UpperHex(c % 16)]
  }

  function Escaped(s: Bytes, table: Table, spaceToPlus: bool): Bytes {
    if s == [] then [] else EscapedByte(s[0], table, spaceToPlus) + Escaped(s[1..], table, spaceToPlus)
  }

  lemma {:induction false} EscapedAppend(s: Bytes, t: Bytes, table: Table, spaceToPlus: bool)
    ensures Escaped(s + t, table, spaceToPlus) == Escaped(s, table, spaceToPlus) + Escaped(t, table, spaceToPlus)
  {
    if s == [] {
      assert s + t == t;
    } else {
      assert (s + t)[1..] == s[1..] + t;
      EscapedAppend(s[1..], t, table, spaceToPlus);
    }
  }

  lemma {:induction false} NothingToEscape(s: Bytes, table: Table, spaceToPlus: bool)
    requires forall k :: 0 <= k < |s| ==> Plain(s[k], table) && s[k] != SPACE
    ensures Escaped(s, table, spaceToPlus) == s
  {
    if s != [] {
      NothingToEscape(s[1..], table, spaceToPlus);
      assert [s[0]] + s[1..] == s;
    }
  }

  /** escape: a first pass counts, and returns the string itself if there is nothing to do. Both tables
      of the source escape the space. */
  method EscapeString(s: Bytes, table: Table, spaceToPlus: bool) returns (r: Bytes)
    requires !table[SPACE]
    ensures r == Escaped(s, table, spaceToPlus)
  {
    var spaceCount, hexCount := 0, 0;
    for i := 0 to |s|
      invariant spaceCount >= 0 && hexCount >= 0
      invariant spaceCount == 0 && hexCount == 0 ==> forall k :: 0 <= k < i ==> Plain(s[k], table)
    {
      var c := s[i];
      if c > 127 || !table[c] {
        if c == SPACE && spaceToPlus { spaceCount := spaceCount + 1; } else { hexCount := hexCount + 1; }
      }
    }
    if spaceCount == 0 && hexCount == 0 {
      NothingToEscape(s, table, spaceToPlus);
      return s;
    }
    r := [];
    for i := 0 to |s|
      invariant r == Escaped(s[..i], table, spaceToPlus)
    {
      var c := s[i];
      assert s[..i + 1] == s[..i] + [c];
      EscapedAppend(s[..i], [c], table, spaceToPlus);
      EscapedOne(c, table, spaceToPlus);
      if c == SPACE && spaceToPlus {
        r := r + [PLUS];
      } else if c > 127 || !table[c] {
        r := r + [PERCENT, UpperHex(c / 16), UpperHex(c % 16)];
      } else {
        r := r + [c];
      }
    }
    assert s[..|s|] == s;
  }

  lemma EscapedOne(c: byte, table: Table, spaceToPlus: bool)
    ensures Escaped([c], table, spaceToPlus) == EscapedByte(c, table, spaceToPlus)
  {
    assert [c][1..] == [];
  }

  /** A percent sign with two hex digits after it. */
  predicate IsEscape(s: Bytes) { |s| > 2 && s[0] == PERCENT && IsHex(s[1]) && IsHex(s[2]) }

  function HexByte(a: byte, b: byte): byte { Unhex(a) * 16 + Unhex(b) }

  function Unescaped(s: Bytes): Bytes {
    if s == [] then []
    else if IsEscape(s) then [HexByte(s[1], s[2])] + Unescaped(s[3..])
    else [if s[0] == PLUS then SPACE else s[0]] + Unescaped(s[1..])
  }

  lemma {:induction false} NothingToUnescape(s: Bytes)
    requires forall i :: 0 <= i < |s| ==> !IsEscape(s[i..]) && s[i] != PLUS
    ensures Unescaped(s) == s
  {
    if s != [] {
      assert s[0..] == s;
      forall i | 0 <= i < |s[1..]| ensures !IsEscape(s[1..][i..]) && s[1..][i] != PLUS {
        assert s[1..][i..] == s[i + 1..];
      }
      NothingToUnescape(s[1..]);
      assert [s[0]] + s[1..] == s;
    }
  }

  /** The first pass of unescapeSearchParam: is there anything to do? */
  method NeedsUnescape(s: Bytes) returns (n: nat, hasPlus: bool)
    ensures n == 0 && !hasPlus ==> forall k :: 0 <= k < |s| ==> !IsEscape(s[k..]) && s[k] != PLUS
  {
    n, hasPlus := 0, false;
    var i := 0;
    while i < |s|
      invariant 0 <= i <= |s|
      invariant n == 0 && !hasPlus ==> forall k :: 0 <= k < i ==> !IsEscape(s[k..]) && s[k] != PLUS
      decreases |s| - i
    {
      if s[i] == PERCENT {
        if i + 2 >= |s| || !IsHex(s[i + 1]) || !IsHex(s[i + 2]) {
          i := i + 1;
          continue;
        }
        n := n + 1;
        i := i + 3;
      } else if s[i] == PLUS {
        hasPlus := true;
        i := i + 1;
      } else {
        i := i + 1;
      }
    }
  }

  /** What the second pass writes at one position, and where it goes on. */
  method UnescapeAt(s: Bytes, i: nat) returns (c: byte, next: nat)
    requires i < |s|
    ensures i < next <= |s| && Unescaped(s[i..]) == [c] + Unescaped(s[next..])
  {
    ghost var here := s[i..];
    assert IsEscape(here) ==> here[3..] == s[i + 3..];
    assert here[1..] == s[i + 1..];
    if s[i] == PERCENT {
      if i + 2 >= |s| || !IsHex(s[i + 1]) || !IsHex(s[i + 2]) {
        return PERCENT, i + 1;
      }
      return HexByte(s[i + 1], s[i + 2]), i + 3;
    } else if s[i] == PLUS {
      return SPACE, i + 1;
    }
    return s[i], i + 1;
  }

  /** unescapeSearchParam: the string itself if there is nothing to do, else a second pass. */
  method UnescapeSearchParam(s: Bytes) returns (r: Bytes)
    ensures r == Unescaped(s)
  {
    var n, hasPlus := NeedsUnescape(s);
    if n == 0 && !hasPlus {
      NothingToUnescape(s);
      return s;
    }
    hide Unescaped, IsEscape;
    r := [];
    var i := 0;
    assert s[0..] == s && [] + Unescaped(s) == Unescaped(s);
    while i < |s|
      invariant 0 <= i <= |s|
      invariant r + Unescaped(s[i..]) == Unescaped(s)
      decreases |s| - i
    {
      var c, next := UnescapeAt(s, i);
      assert r + ([c] + Unescaped(s[next..])) == r + [c] + Unescaped(s[next..]);
      r := r + [c];
      i := next;
    }
    UnescapedNothing();
    assert s[|s|..] == [] && r + [] == r;
  }

  lemma UnescapedNothing()
    ensures Unescaped([]) == []
  {
  }

  // ---------------------------------------------------------------------------------
  // Unescaping undoes escaping, but for the plus sign
  // ---------------------------------------------------------------------------------

  /** s with every plus sign turned into a space. */
  function PlusToSpace(s: Bytes): Bytes {
    seq(|s|, i requires 0 <= i < |s| => if s[i] == PLUS then SPACE else s[i])
  }

  function EscapedParam(s: Bytes): Bytes { Escaped(s, QueryParam(), true) }

  lemma UnescapeFirst(c: byte, rest: Bytes)
    ensures Unescaped(EscapedByte(c, QueryParam(), true) + rest)
         == [if c == PLUS then SPACE else c] + Unescaped(rest)
  {
    var e := EscapedByte(c, QueryParam(), true);
    assert (e + rest)[|e|..] == rest;
    assert c / 16 * 16 + c % 16 == c;
  }

  lemma {:induction false} UnescapeUndoesEscape(s: Bytes)
    ensures Unescaped(EscapedParam(s)) == PlusToSpace(s)
  {
    if s != [] {
      UnescapeFirst(s[0], EscapedParam(s[1..]));
      UnescapeUndoesEscape(s[1..]);
      assert PlusToSpace(s) == [if s[0] == PLUS then SPACE else s[0]] + PlusToSpace(s[1..]);
    }
  }

  /** A space and a plus sign are escaped alike. */
  lemma {:induction false} EscapeForgetsPlus(s: Bytes)
    ensures EscapedParam(PlusToSpace(s)) == EscapedParam(s)
  {
    if s != [] {
      EscapeForgetsPlus(s[1..]);
      assert PlusToSpace(s)[1..] == PlusToSpace(s[1..]);
      assert EscapedByte(SPACE, QueryParam(), true) == EscapedByte(PLUS, QueryParam(), true);
    }
  }

  lemma PlusFree(s: Bytes)
    ensures PlusToSpace(s) == s <==> PLUS !in s
  {
    if PlusToSpace(s) == s {
      forall i | 0 <= i < |s| ensures s[i] != PLUS {
        assert PlusToSpace(s)[i] == s[i];
      }
    }
  }

  predicate UpperDigit(d: byte) { 48 <= d <= 57 || 65 <= d <= 70 }

  /** How one byte is escaped: a space as a plus sign if that is asked for; a byte of the table as itself; any
      other as a percent sign and its two digits in upper case. */
  lemma EscapedByteIs(c: byte, table: Table, spaceToPlus: bool)
    ensures var e := EscapedByte(c, table, spaceToPlus);
      if c == 32 && spaceToPlus then e == [43]
      else if c < 128 && table[c] then e == [c]
      else |e| == 3 && e[0] == 37 && UpperDigit(e[1]) && UpperDigit(e[2]) && HexByte(e[1], e[2]) == c
  {
    assert c / 16 * 16 + c % 16 == c;
  }

  /** In an escaped string every percent sign has its two digits, in upper case. */
  lemma {:induction false} PercentsHaveDigits(s: Bytes)
    ensures var e := EscapedParam(s);
      forall i :: 0 <= i < |e| && e[i] == PERCENT ==> i + 2 < |e| && UpperDigit(e[i + 1]) && UpperDigit(e[i + 2])
  {
    if s != [] {
      PercentsHaveDigits(s[1..]);
      EscapedByteIs(s[0], QueryParam(), true);
      var (e, rest) := (EscapedByte(s[0], QueryParam(), true), EscapedParam(s[1..]));
      hide EscapedByte;
      forall i | 0 <= i < |e + rest| && (e + rest)[i] == PERCENT
        ensures i + 2 < |e + rest| && UpperDigit((e + rest)[i + 1]) && UpperDigit((e + rest)[i + 2])
      {
        if i >= |e| {
          assert rest[i - |e|] == PERCENT;
        }
      }
    }
  }

  /** A space, a letter, an ampersand and a letter of two bytes. */
  lemma EscapingExample()
    ensures EscapedParam([0x20, 0x61, 0x26, 0xC3, 0xA9]) == [43, 0x61, 37, 50, 54, 37, 67, 51, 37, 65, 57]
  {
    assert EscapedParam([0xA9]) == [37, 65, 57];
    assert EscapedParam([0xC3, 0xA9]) == [37, 67, 51, 37, 65, 57];
    assert EscapedParam([0x26, 0xC3, 0xA9]) == [37, 50, 54, 37, 67, 51, 37, 65, 57];
  }

  /** What any string is unescaped to, front to back: two hex digits after a percent sign are a byte, a plus sign
      is a space, and everything else stays, a percent sign without its digits included. */
  lemma UnescapedFront(c: byte, rest: Bytes)
    ensures Unescaped([]) == []
    ensures Unescaped([c] + rest) ==
      if c == 37 && |rest| >= 2 && IsHex(rest[0]) && IsHex(rest[1]) then [HexByte(rest[0], rest[1])] + Unescaped(rest[2..])
      else [if c == 43 then 32 else c] + Unescaped(rest)
  {
    hide IsHex, HexByte;
    var s := [c] + rest;
    assert s[1..] == rest;
    if |rest| >= 2 {
      assert s[3..] == rest[2..];
    }
    EscapeAtFront(c, rest);
    hide IsEscape;
  }

  lemma EscapeAtFront(c: byte, rest: Bytes)
    ensures IsEscape([c] + rest) <==> c == 37 && |rest| >= 2 && IsHex(rest[0]) && IsHex(rest[1])
  {
    hide IsHex;
  }

  lemma DigitValues(d: byte)
    ensures IsHex(d) <==> d as char in "0123456789abcdefABCDEF"
    ensures 48 <= d <= 57 ==> Unhex(d) == d - 48
    ensures d in {65, 97} ==> Unhex(d) == 10
    ensures d in {70, 102} ==> Unhex(d) == 15
    ensures HexByte(d, d) == 17 * Unhex(d)
  {
  }

  /** An escaped string is free of everything a query gives a meaning to. */
  lemma {:induction false} EscapedIsClean(s: Bytes)
    ensures forall c :: c in EscapedParam(s) ==> InQueryParam(c) || c == PERCENT
  {
    if s != [] {
      EscapedIsClean(s[1..]);
    }
  }
}

/** url/nodeurl.go: the list of search parameters, printed and parsed. */
module SearchParams {
  import opened Utf8
  import opened Escape

  const AMP: byte := 38
  const EQUALS: byte := 61
  const QUESTION: byte := 63

  datatype Param = Param(name: Bytes, value: Bytes)

  function Printed(p: Param): Bytes { EscapedParam(p.name) + [EQUALS] + EscapedParam(p.value) }

  function Encoded(ps: seq<Param>): Bytes {
    if ps == [] then []
    else if |ps| == 1 then Printed(ps[0])
    else Printed(ps[0]) + [AMP] + Encoded(ps[1..])
  }

  /** The position of the first c, or the length. */
  function IndexOf(s: Bytes, c: byte): (n: nat)
    ensures n <= |s| && c !in s[..n] && (n < |s| ==> s[n] == c)
  {
    if s == [] || s[0] == c then 0 else 1 + IndexOf(s[1..], c)
  }

  /** strings.Split at every c. */
  function Split(s: Bytes, c: byte): seq<Bytes>
    decreases |s|
  {
    var n := IndexOf(s, c);
    if n == |s| then [s] else [s[..n]] + Split(s[n + 1..], c)
  }

  /** strings.SplitN at the first equals sign, unescaped. */
  function ParsedPair(v: Bytes): Param {
    var n := IndexOf(v, EQUALS);
    if n == |v| then Param(Unescaped(v), []) else Param(Unescaped(v[..n]), Unescaped(v[n + 1..]))
  }

  function ParsedPairs(vs: seq<Bytes>): seq<Param> {
    if vs == [] then []
    else if vs[0] == [] then ParsedPairs(vs[1..])
    else [ParsedPair(vs[0])] + ParsedPairs(vs[1..])
  }

  function WithoutQuestion(q: Bytes): Bytes { if q != [] && q[0] == QUESTION then q[1..] else q }

  function Parsed(q: Bytes): seq<Param> { ParsedPairs(Split(WithoutQuestion(q), AMP)) }

  // ---------------------------------------------------------------------------------
  // The loops
  // ---------------------------------------------------------------------------------

  lemma {:induction false} EncodedSnoc(ps: seq<Param>, p: Param)
    ensures Encoded(ps + [p]) == Encoded(ps) + (if ps == [] then [] else [AMP]) + Printed(p)
  {
    if ps == [] {
      assert ps + [p] == [p];
    } else {
      assert (ps + [p])[1..] == ps[1..] + [p];
      EncodedSnoc(ps[1..], p);
      if |ps| > 1 {
        assert Encoded(ps + [p]) == Printed(ps[0]) + [AMP] + (Encoded(ps[1..]) + [AMP] + Printed(p));
      }
    }
  }

  method Encode(ps: seq<Param>) returns (q: Bytes)
    ensures q == Encoded(ps)
  {
    q := [];
    for i := 0 to |ps|
      invariant q == Encoded(ps[..i])
    {
      assert ps[..i + 1] == ps[..i] + [ps[i]];
      EncodedSnoc(ps[..i], ps[i]);
      if i > 0 { q := q + [AMP]; }
      var name := EscapeString(ps[i].name, QueryParam(), true);
      var value := EscapeString(ps[i].value, QueryParam(), true);
      q := q + (name + [EQUALS] + value);
    }
    assert ps[..|ps|] == ps;
  }

  lemma {:induction false} ParsedSnoc(vs: seq<Bytes>, v: Bytes)
    ensures ParsedPairs(vs + [v]) == ParsedPairs(vs) + if v == [] then [] else [ParsedPair(v)]
  {
    if vs == [] {
      assert vs + [v] == [v];
      assert [v][1..] == [];
    } else {
      assert (vs + [v])[1..] == vs[1..] + [v];
      ParsedSnoc(vs[1..], v);
    }
  }

  method ParseSearchQuery(q: Bytes) returns (ps: seq<Param>)
    ensures ps == Parsed(q)
  {
    if q == [] {
      assert Split([], AMP) == [[]];
      assert ParsedPairs([[]]) == ParsedPairs([[]][1..]);
      return [];
    }
    var vs := Split(WithoutQuestion(q), AMP);
    ps := [];
    for i := 0 to |vs|
      invariant ps == ParsedPairs(vs[..i])
    {
      var v := vs[i];
      assert vs[..i + 1] == vs[..i] + [v];
      ParsedSnoc(vs[..i], v);
      if v == [] { continue; }
      var n := IndexOf(v, EQUALS);
      if n == |v| {
        var name := UnescapeSearchParam(v);
        ps := ps + [Param(name, [])];
      } else {
        var name := UnescapeSearchParam(v[..n]);
        var value := UnescapeSearchParam(v[n + 1..]);
        ps := ps + [Param(name, value)];
      }
    }
    assert vs[..|vs|] == vs;
  }

  // ---------------------------------------------------------------------------------
  // Parsing undoes printing, but for the plus sign
  // ---------------------------------------------------------------------------------

  lemma {:induction false} IndexAfter(a: Bytes, c: byte, b: Bytes)
    requires c !in a
    ensures IndexOf(a + [c] + b, c) == |a| && IndexOf(a, c) == |a|
  {
    if a != [] {
      IndexAfter(a[1..], c, b);
      assert (a + [c] + b)[1..] == a[1..] + [c] + b;
    }
  }

  lemma PrintedParses(p: Param)
    ensures ParsedPair(Printed(p)) == Param(PlusToSpace(p.name), PlusToSpace(p.value))
    ensures Printed(p) != [] && AMP !in Printed(p) && Printed(p)[0] != QUESTION
  {
    var a, b := EscapedParam(p.name), EscapedParam(p.value);
    EscapedIsClean(p.name);
    EscapedIsClean(p.value);
    IndexAfter(a, EQUALS, b);
    assert (a + [EQUALS] + b)[..|a|] == a && (a + [EQUALS] + b)[|a| + 1..] == b;
    UnescapeUndoesEscape(p.name);
    UnescapeUndoesEscape(p.value);
  }

  function PlusesToSpaces(ps: seq<Param>): seq<Param> {
    seq(|ps|, i requires 0 <= i < |ps| => Param(PlusToSpace(ps[i].name), PlusToSpace(ps[i].value)))
  }

  lemma SplitFirst(a: Bytes, c: byte, b: Bytes)
    requires c !in a
    ensures Split(a + [c] + b, c) == [a] + Split(b, c) && Split(a, c) == [a]
  {
    IndexAfter(a, c, b);
    assert (a + [c] + b)[..|a|] == a && (a + [c] + b)[|a| + 1..] == b;
  }

  lemma {:induction false} PairsComeBack(ps: seq<Param>)
    requires ps != []
    ensures ParsedPairs(Split(Encoded(ps), AMP)) == PlusesToSpaces(ps)
    ensures Encoded(ps) != [] && Encoded(ps)[0] != QUESTION
  {
    hide Printed, ParsedPair, Split, IndexOf, PlusToSpace, ParsedPairs;
    var p := ps[0];
    PrintedParses(p);
    if |ps| == 1 {
      SplitFirst(Printed(p), AMP, []);
      ParsedFirst(Printed(p), []);
    } else {
      PairsComeBack(ps[1..]);
      SplitFirst(Printed(p), AMP, Encoded(ps[1..]));
      ParsedFirst(Printed(p), Split(Encoded(ps[1..]), AMP));
    }
  }

  lemma ParsedFirst(v: Bytes, vs: seq<Bytes>)
    requires v != []
    ensures ParsedPairs([v] + vs) == [ParsedPair(v)] + ParsedPairs(vs)
    ensures ParsedPairs([v]) == [ParsedPair(v)]
  {
    assert ([v] + vs)[1..] == vs;
    assert [v][1..] == [] && ParsedPairs([]) == [];
  }

  /** For every list of parameters: printing and parsing gives the list with every plus sign turned into
      a space; so the list itself exactly if there is no plus sign; and printing that again gives the
      same query. */
  lemma ParseUndoesEncode(ps: seq<Param>)
    ensures Parsed(Encoded(ps)) == PlusesToSpaces(ps)
    ensures Parsed(Encoded(ps)) == ps <==> forall p :: p in ps ==> PLUS !in p.name && PLUS !in p.value
    ensures Encoded(Parsed(Encoded(ps))) == Encoded(ps)
  {
    if ps == [] {
      assert Split([], AMP) == [[]];
      assert ParsedPairs([[]]) == ParsedPairs([[]][1..]);
    } else {
      PairsComeBack(ps);
    }
    SameWithoutPlus(ps);
    PrintingForgetsPlus(ps);
  }

  lemma SameWithoutPlus(ps: seq<Param>)
    ensures PlusesToSpaces(ps) == ps <==> forall p :: p in ps ==> PLUS !in p.name && PLUS !in p.value
  {
    var qs := PlusesToSpaces(ps);
    forall i | 0 <= i < |ps| ensures qs[i] == ps[i] <==> PLUS !in ps[i].name && PLUS !in ps[i].value {
      PlusFree(ps[i].name);
      PlusFree(ps[i].value);
    }
    if qs == ps {
      forall p | p in ps ensures PLUS !in p.name && PLUS !in p.value {
        var i :| 0 <= i < |ps| && ps[i] == p;
        assert qs[i] == ps[i];
      }
    }
  }

  lemma {:induction false} PrintingForgetsPlus(ps: seq<Param>)
    ensures Encoded(PlusesToSpaces(ps)) == Encoded(ps)
  {
    if ps != [] {
      EscapeForgetsPlus(ps[0].name);
      EscapeForgetsPlus(ps[0].value);
      assert PlusesToSpaces(ps)[1..] == PlusesToSpaces(ps[1..]);
      PrintingForgetsPlus(ps[1..]);
    }
  }

  lemma PieceParses(name: Bytes, value: Bytes)
    requires EQUALS !in name
    ensures ParsedPair(name) == Param(Unescaped(name), [])
    ensures ParsedPair(name + [EQUALS] + value) == Param(Unescaped(name), Unescaped(value))
  {
    IndexAfter(name, EQUALS, value);
    assert (name + [EQUALS] + value)[..|name|] == name && (name + [EQUALS] + value)[|name| + 1..] == value;
  }

  /** What any query parses to, front to back: a question mark at the front is dropped, an empty piece gives
      nothing, and each other piece one parameter. */
  lemma QueryParses(piece: Bytes, rest: Bytes)
    requires AMP !in piece && (piece != [] ==> piece[0] != QUESTION)
    ensures Parsed([QUESTION] + piece) == Parsed(piece) == if piece == [] then [] else [ParsedPair(piece)]
    ensures rest == [] || rest[0] != QUESTION ==>
      Parsed(piece + [AMP] + rest) == (if piece == [] then [] else [ParsedPair(piece)]) + Parsed(rest)
  {
    SplitFirst(piece, AMP, rest);
    assert ([QUESTION] + piece)[1..] == piece;
    ParsedOne(piece, Split(rest, AMP));
    ParsedOne(piece, []);
    assert [piece] + [] == [piece];
    hide Split, ParsedPairs;
    assert WithoutQuestion(piece + [AMP] + rest) == piece + [AMP] + rest;
  }

  lemma ParsedOne(v: Bytes, vs: seq<Bytes>)
    ensures ParsedPairs([v] + vs) == (if v == [] then [] else [ParsedPair(v)]) + ParsedPairs(vs)
    ensures ParsedPairs([]) == []
  {
    assert ([v] + vs)[1..] == vs;
  }

  /** A plus sign in a value comes back as a space. */
  lemma PlusIsLost()
    ensures Parsed(Encoded([Param([97], [PLUS])])) == [Param([97], [SPACE])]
  {
    ParseUndoesEncode([Param([97], [PLUS])]);
    assert PlusToSpace([97]) == [97] && PlusToSpace([PLUS]) == [SPACE];
  }

  /** Different lists without plus signs have different queries. */
  lemma EncodedIsInjective(ps: seq<Param>, qs: seq<Param>)
    requires Encoded(ps) == Encoded(qs)
    ensures PlusesToSpaces(ps) == PlusesToSpaces(qs)
  {
    ParseUndoesEncode(ps);
    ParseUndoesEncode(qs);
  }
}
