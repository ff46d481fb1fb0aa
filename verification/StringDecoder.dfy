/** Base64 (section 4 of RFC 4648), as the standard library of the host provides it. */
module Base64 {
  import opened Utf8

  type Sextet = v: int | 0 <= v < 64

  const PAD := 61

  /** The alphabet: A-Z, a-z, 0-9, + and /. */
  function Symbol(v: Sextet): (c: nat)
    ensures c != PAD
  {
    if v < 26 then 65 + v
    else if v < 52 then 97 + (v - 26)
    else if v < 62 then 48 + (v - 52)
    else if v == 62 then 43
    else 47
  }

  datatype Option<T> = None | Some(value: T)

  function ValueOf(c: nat): Option<Sextet> {
    if 65 <= c <= 90 then Some(c - 65)
    else if 97 <= c <= 122 then Some(c - 97 + 26)
    else if 48 <= c <= 57 then Some(c - 48 + 52)
    else if c == 43 then Some(62)
    else if c == 47 then Some(63)
    else None
  }

  function Group(a: byte, b: byte, c: byte): seq<nat> {
    [Symbol(a / 4), Symbol(a % 4 * 16 + b / 16), Symbol(b % 16 * 4 + c / 64), Symbol(c % 64)]
  }

  function Encoded(p: Bytes): seq<nat> {
    if |p| == 0 then []
    else if |p| == 1 then [Symbol(p[0] / 4), Symbol(p[0] % 4 * 16), PAD, PAD]
    else if |p| == 2 then [Symbol(p[0] / 4), Symbol(p[0] % 4 * 16 + p[1] / 16), Symbol(p[1] % 16 * 4), PAD]
    else Group(p[0], p[1], p[2]) + Encoded(p[3..])
  }

  /** The bytes of a group of four symbols, the last `pads` of them padding. */
  function GroupBytes(x: Sextet, y: Sextet, z: Sextet, w: Sextet, pads: nat): Bytes {
    var all := [x * 4 + y / 16, y % 16 * 16 + z / 4, z % 4 * 64 + w];
    if pads == 0 then all else if pads == 1 then all[..2] else all[..1]
  }

  function Decoded(s: seq<nat>): Option<Bytes> {
    if s == [] then Some([])
    else if |s| < 4 || ValueOf(s[0]).None? || ValueOf(s[1]).None? then None
    else
      var (x, y) := (ValueOf(s[0]).value, ValueOf(s[1]).value);
      if |s| == 4 && s[2] == PAD && s[3] == PAD then Some(GroupBytes(x, y, 0, 0, 2))
      else if ValueOf(s[2]).None? then None
      else if |s| == 4 && s[3] == PAD then Some(GroupBytes(x, y, ValueOf(s[2]).value, 0, 1))
      else if ValueOf(s[3]).None? then None
      else
        match Decoded(s[4..])
        case None => None
        case Some(rest) => Some(GroupBytes(x, y, ValueOf(s[2]).value, ValueOf(s[3]).value, 0) + rest)
  }

  lemma SymbolValue(v: Sextet)
    ensures ValueOf(Symbol(v)) == Some(v)
  {
  }

  lemma GroupOf(a: byte, b: byte, c: byte)
    ensures GroupBytes(a / 4, a % 4 * 16 + b / 16, b % 16 * 4 + c / 64, c % 64, 0) == [a, b, c]
  {
    assert (a % 4 * 16 + b / 16) / 16 == a % 4;
    assert (a % 4 * 16 + b / 16) % 16 == b / 16;
    assert (b % 16 * 4 + c / 64) / 4 == b % 16;
    assert (b % 16 * 4 + c / 64) % 4 == c / 64;
  }

  lemma OneByte(a: byte)
    ensures Decoded(Encoded([a])) == Some([a])
  {
    GroupOf(a, 0, 0);
    SymbolValue(a / 4);
    SymbolValue(a % 4 * 16);
    assert GroupBytes(a / 4, a % 4 * 16, 0, 0, 2) == [a];
    hide Symbol, ValueOf, GroupBytes;
  }

  lemma TwoBytes(a: byte, b: byte)
    ensures Decoded(Encoded([a, b])) == Some([a, b])
  {
    hide Symbol, ValueOf, GroupBytes;
    GroupOf(a, b, 0);
    SymbolValue(a / 4);
    SymbolValue(a % 4 * 16 + b / 16);
    SymbolValue(b % 16 * 4);
    TwoOfGroup(a, b);
  }

  lemma TwoOfGroup(a: byte, b: byte)
    ensures GroupBytes(a / 4, a % 4 * 16 + b / 16, b % 16 * 4, 0, 1) == [a, b]
  {
    GroupOf(a, b, 0);
    assert [a, b, 0][..2] == [a, b];
  }

  /** Decoding undoes encoding, so no two byte strings have the same text. */
  lemma {:induction false} DecodedUndoesEncoded(p: Bytes)
    ensures Decoded(Encoded(p)) == Some(p)
  {
    if |p| == 1 {
      OneByte(p[0]);
      assert p == [p[0]];
    } else if |p| == 2 {
      TwoBytes(p[0], p[1]);
      assert p == [p[0], p[1]];
    } else if |p| > 2 {
      DecodedUndoesEncoded(p[3..]);
      GroupFirst(p[0], p[1], p[2], p[3..]);
      assert [p[0], p[1], p[2]] + p[3..] == p;
    }
  }

  lemma GroupFirst(a: byte, b: byte, c: byte, rest: Bytes)
    requires Decoded(Encoded(rest)) == Some(rest)
    ensures Decoded(Group(a, b, c) + Encoded(rest)) == Some([a, b, c] + rest)
  {
    hide Symbol, ValueOf, GroupBytes, Encoded;
    var s := Group(a, b, c) + Encoded(rest);
    assert s[4..] == Encoded(rest);
    GroupOf(a, b, c);
    SymbolValue(a / 4);
    SymbolValue(a % 4 * 16 + b / 16);
    SymbolValue(b % 16 * 4 + c / 64);
    SymbolValue(c % 64);
  }

  /** Test vectors of section 10 of RFC 4648, and the last symbols of the alphabet. */
  lemma EncodingExamples()
    ensures Encoded([0x66]) == AsCodes("Zg==") && Encoded([0x66, 0x6F]) == AsCodes("Zm8=")
    ensures Encoded([0x66, 0x6F, 0x6F]) == AsCodes("Zm9v")
    ensures Encoded([0xFB, 0xEF, 0xFF]) == AsCodes("++//")
  {
    hide Encoded, AsCodes;
    ShortExamples();
    GroupExamples();
  }

  lemma ShortExamples()
    ensures Encoded([0x66]) == AsCodes("Zg==") && Encoded([0x66, 0x6F]) == AsCodes("Zm8=")
  {
  }

  lemma GroupExamples()
    ensures Encoded([0x66, 0x6F, 0x6F]) == AsCodes("Zm9v")
    ensures Encoded([0xFB, 0xEF, 0xFF]) == AsCodes("++//")
  {
    hide Encoded;
    ThreeBytes(0x66, 0x6F, 0x6F);
    ThreeBytes(0xFB, 0xEF, 0xFF);
  }

  lemma ThreeBytes(a: byte, b: byte, c: byte)
    ensures Encoded([a, b, c]) == Group(a, b, c)
  {
    assert [a, b, c][3..] == [];
  }

  function AsCodes(s: string): seq<nat> { seq(|s|, i requires 0 <= i < |s| => s[i] as nat) }

  lemma {:induction false} EncodedInTwo(p: Bytes, q: Bytes)
    requires |p| % 3 == 0
    ensures Encoded(p + q) == Encoded(p) + Encoded(q)
  {
    if p == [] {
      assert p + q == q;
    } else {
      hide Group, Symbol;
      EncodedInTwo(p[3..], q);
      assert (p + q)[3..] == p[3..] + q;
      assert Encoded(p + q) == Group(p[0], p[1], p[2]) + Encoded((p + q)[3..]);
    }
  }

  /** The number of padding symbols. */
  function Pads(n: nat): nat { if n % 3 == 0 then 0 else 3 - n % 3 }

  /** Four symbols for every three bytes begun, and padding in the last places only. */
  lemma {:induction false} PaddingAtTheEnd(p: Bytes)
    ensures |Encoded(p)| == (|p| + 2) / 3 * 4 && Pads(|p|) <= |Encoded(p)|
    ensures forall i :: 0 <= i < |Encoded(p)| ==> (Encoded(p)[i] == PAD <==> i >= |Encoded(p)| - Pads(|p|))
  {
    if |p| >= 3 {
      var g, rest := Group(p[0], p[1], p[2]), Encoded(p[3..]);
      assert forall i :: 0 <= i < 4 ==> g[i] != PAD;
      PaddingAtTheEnd(p[3..]);
      assert Pads(|p|) == Pads(|p| - 3) && (|p| + 2) / 3 * 4 == 4 + (|p| - 1) / 3 * 4;
      hide Group, Pads;
      assert Encoded(p) == g + rest;
    }
  }
}

/** string_decoder/module.go: a decoder that keeps what a write leaves incomplete. UTF-8 gives code
    points, the other encodings code units. */
module StringDecoder {
  import opened Utf8
  import Base64

  datatype Encoding = Utf8Enc | Ucs2 | Base64Enc

  type Symbols = seq<nat>

  // ---------------------------------------------------------------------------------
  // UTF-8
  // ---------------------------------------------------------------------------------

  /** utf8.FullRune: more bytes would not change how the first rune decodes. */
  predicate FullRune(p: Bytes) {
    && p != []
    && (|p| >= Announced(p[0]) || (|p| > 1 && !SecondOk(p[0], p[1])) || (|p| > 2 && !IsTail(p[2])))
  }

  /** utf8.DecodeRune: a well-formed sequence, or one byte in error. */
  function DecodeRune(p: Bytes): (r: (Rune, nat))
    requires p != []
    ensures 1 <= r.1 <= |p|
  {
    var n := Announced(p[0]);
    if 0 < n <= |p| && WellFormed(p[..n]) then (Decode(p[..n]), n) else (RuneError, 1)
  }

  function ScanUtf8(p: Bytes, flush: bool): (Symbols, Bytes) {
    if p == [] then ([], [])
    else if !FullRune(p) then if flush then ([RuneError], []) else ([], p)
    else
      var (r, n) := DecodeRune(p);
      var (t, rest) := ScanUtf8(p[n..], flush);
      ([r] + t, rest)
  }

  lemma MoreBytes(p: Bytes, q: Bytes)
    requires FullRune(p)
    ensures FullRune(p + q) && DecodeRune(p + q) == DecodeRune(p)
  {
    var n := Announced(p[0]);
    if n <= |p| {
      assert (p + q)[..n] == p[..n];
    }
  }

  lemma {:induction false} Utf8InTwo(p: Bytes, q: Bytes, flush: bool)
    ensures var (t, rest) := ScanUtf8(p, false);
            var (u, rest') := ScanUtf8(rest + q, flush);
            ScanUtf8(p + q, flush) == (t + u, rest')
    decreases |p|
  {
    hide FullRune, DecodeRune;
    if p == [] {
      assert p + q == q && [] + q == q;
    } else if FullRune(p) {
      MoreBytes(p, q);
      var (r, n) := DecodeRune(p);
      assert (p + q)[n..] == p[n..] + q;
      Utf8InTwo(p[n..], q, flush);
      ScanFirst(p, false);
      ScanFirst(p + q, flush);
      hide ScanUtf8;
      var (t, rest) := ScanUtf8(p[n..], false);
      var first: Symbols := [r];
      assert first + (t + ScanUtf8(rest + q, flush).0) == first + t + ScanUtf8(rest + q, flush).0;
    } else {
      assert [] + ScanUtf8(p + q, flush).0 == ScanUtf8(p + q, flush).0;
    }
  }

  lemma ScanFirst(p: Bytes, flush: bool)
    requires FullRune(p)
    ensures var (r, n) := DecodeRune(p);
      ScanUtf8(p, flush) == ([r] + ScanUtf8(p[n..], flush).0, ScanUtf8(p[n..], flush).1)
  {
  }

  /** An incomplete sequence at the end is one U+FFFD. */
  lemma FlushAddsOneError(p: Bytes)
    ensures ScanUtf8(p, true).0 == ScanUtf8(p, false).0 + if ScanUtf8(p, false).1 == [] then [] else [RuneError]
    ensures |ScanUtf8(p, false).1| <= 3
  {
    Utf8InTwo(p, [], true);
    assert p + [] == p;
    var rest := ScanUtf8(p, false).1;
    assert rest + [] == rest;
    RestIsIncomplete(p);
  }

  lemma {:induction false} RestIsIncomplete(p: Bytes)
    ensures var rest := ScanUtf8(p, false).1; rest == [] || !FullRune(rest)
    decreases |p|
  {
    if p != [] && FullRune(p) {
      RestIsIncomplete(p[DecodeRune(p).1..]);
    }
  }

  /** Text that was encoded comes back. */
  lemma {:induction false} ScanUndoesEncode(t: Text, flush: bool)
    ensures ScanUtf8(EncodeAll(t), flush) == (t, [])
  {
    if t != [] {
      var s, rest := Encode(t[0]), EncodeAll(t[1..]);
      EncodeDecodes(t[0]);
      assert (s + rest)[..|s|] == s && (s + rest)[|s|..] == rest;
      ScanUndoesEncode(t[1..], flush);
      assert DecodeRune(s + rest) == (t[0], |s|);
      assert [t[0]] + t[1..] == t;
    }
  }

  predicate CutOff(p: Bytes) { p != [] && !FullRune(p) }

  /** What waits for more is exactly what a well-formed sequence can still come of. */
  lemma CutOffIsAStart(p: Bytes)
    requires p != []
    ensures CutOff(p) <==> exists w :: WellFormed(w) && p < w
  {
    if CutOff(p) {
      var w := Completed(p);
      assert WellFormed(w) && p < w;
    }
    if w :| WellFormed(w) && p < w {
      assert w[0] == p[0] && (|p| > 1 ==> w[1] == p[1]) && (|p| > 2 ==> w[2] == p[2]);
    }
  }

  /** Some sequence that p starts. */
  function Completed(p: Bytes): Bytes
    requires CutOff(p)
  {
    var second: byte := if |p| > 1 then p[1] else if p[0] == 0xE0 then 0xA0 else if p[0] == 0xF0 then 0x90 else 0x80;
    var third: byte := if |p| > 2 then p[2] else 0x80;
    [p[0], second, third, 0x80][..Announced(p[0])]
  }

  lemma BadByte(p: Bytes)
    requires FullRune(p) && (var n := Announced(p[0]); n == 0 || n > |p| || !WellFormed(p[..n]))
    ensures NothingStarts(p, CutOff) && p[..1] <= p
  {
    forall n | 0 <= n <= |p| ensures !WellFormed(p[..n]) {
      PrefixIsAnnounced(p, n);
    }
  }

  /** The output reads the bytes piece by piece: every well-formed sequence as its rune, every byte at which none
      starts as U+FFFD, and, when flushing, a start of one as one U+FFFD. */
  lemma {:induction false} ScanReadsItsData(p: Bytes, flush: bool) returns (parts: seq<Bytes>)
    ensures Segmented(p, parts, ScanUtf8(p, flush).0, ScanUtf8(p, flush).1, flush, CutOff)
    decreases |p|
  {
    if p == [] {
      parts := [];
    } else if CutOff(p) {
      parts := if flush then [p] else [];
    } else {
      var (r, n) := DecodeRune(p);
      if n != Announced(p[0]) || !WellFormed(p[..n]) { BadByte(p); }
      var more := ScanReadsItsData(p[n..], flush);
      parts := [p[..n]] + more;
      assert parts[1..] == more;
      var t := ScanUtf8(p[n..], flush).0;
      var first: Symbols := [r];
      assert (first + t)[1..] == t && ScanUtf8(p, flush).0 == first + t;
    }
  }

  // ---------------------------------------------------------------------------------
  // UTF-16, little endian
  // ---------------------------------------------------------------------------------

  function UnitAt(p: Bytes, i: nat): nat
    requires 2 * i + 1 < |p|
  {
    p[2 * i] as int + 0x100 * (p[2 * i + 1] as int)
  }

  predicate High(u: nat) { 0xD800 <= u <= 0xDBFF }

  predicate Low(u: nat) { 0xDC00 <= u <= 0xDFFF }

  function Units(p: Bytes): Symbols { seq(|p| / 2, i requires 0 <= i < |p| / 2 => UnitAt(p, i)) }

  /** The last whole unit is a high surrogate: its pair may be on the way. */
  predicate HoldsBack(p: Bytes) { |p| >= 2 && High(UnitAt(p, |p| / 2 - 1)) }

  /** How many bytes a write decodes: whole units, without a high surrogate at the end. */
  function UsableUcs2(p: Bytes, flush: bool): (n: nat)
    ensures n <= |p| && n % 2 == 0
  {
    |p| - |p| % 2 - if !flush && HoldsBack(p) then 2 else 0
  }

  function ScanUcs2(p: Bytes, flush: bool): (Symbols, Bytes) {
    var n := UsableUcs2(p, flush);
    (Units(p[..n]), if flush then [] else p[n..])
  }

  lemma UnitsInTwo(p: Bytes, q: Bytes)
    requires |p| % 2 == 0
    ensures Units(p + q) == Units(p) + Units(q)
  {
    var k := |p| / 2;
    forall i | 0 <= i < |Units(p + q)| ensures Units(p + q)[i] == (Units(p) + Units(q))[i] {
      if i < k {
        assert UnitAt(p + q, i) == UnitAt(p, i);
      } else {
        assert (p + q)[2 * i] == q[2 * (i - k)] && (p + q)[2 * i + 1] == q[2 * (i - k) + 1];
      }
    }
  }

  lemma Ucs2InTwo(p: Bytes, q: Bytes, flush: bool)
    ensures var (t, rest) := ScanUcs2(p, false);
            var (u, rest') := ScanUcs2(rest + q, flush);
            ScanUcs2(p + q, flush) == (t + u, rest')
  {
    hide UsableUcs2;
    var n := UsableUcs2(p, false);
    var r := p[n..] + q;
    UsableInTwo(p, q, flush);
    var k := UsableUcs2(r, flush);
    assert (p + q)[..n + k] == p[..n] + r[..k];
    assert (p + q)[n + k..] == r[k..];
    UnitsInTwo(p[..n], r[..k]);
  }

  /** What a write decoded does not matter to how much more can be. */
  lemma UsableInTwo(p: Bytes, q: Bytes, flush: bool)
    ensures var n := UsableUcs2(p, false);
      UsableUcs2(p + q, flush) == n + UsableUcs2(p[n..] + q, flush)
  {
    var n := UsableUcs2(p, false);
    var r := p[n..] + q;
    assert p + q == p[..n] + r;
    HoldsBackInTwo(p[..n], r);
    if |r| < 2 && n >= 2 {
      assert UnitAt(p + q, n / 2 - 1) == UnitAt(p, n / 2 - 1);
    }
  }

  lemma HoldsBackInTwo(done: Bytes, r: Bytes)
    requires |done| % 2 == 0
    ensures |r| >= 2 ==> HoldsBack(done + r) == HoldsBack(r)
  {
    if |r| >= 2 {
      var d, k := |done| / 2, |r| / 2 - 1;
      assert (|done| + |r|) / 2 - 1 == d + k;
      assert (done + r)[2 * (d + k)] == r[2 * k] && (done + r)[2 * (d + k) + 1] == r[2 * k + 1];
    }
  }

  type Unit = u: nat | u < 0x10000

  function LowByteFirst(u: Unit): Bytes { [u % 0x100, u / 0x100] }

  /** The bytes of some units. */
  function UnitBytes(us: seq<Unit>): Bytes {
    if us == [] then [] else LowByteFirst(us[0]) + UnitBytes(us[1..])
  }

  lemma {:induction false} UnitsUndoUnitBytes(us: seq<Unit>)
    ensures |UnitBytes(us)| == 2 * |us| && Units(UnitBytes(us)) == us
  {
    if us != [] {
      UnitsUndoUnitBytes(us[1..]);
      var p := LowByteFirst(us[0]);
      UnitsInTwo(p, UnitBytes(us[1..]));
      assert UnitAt(p, 0) == us[0];
      assert Units(p) == [us[0]];
    }
  }

  /** At the end every whole unit comes out, whatever it is, and a byte over is dropped. */
  lemma EndGivesAllUnits(us: seq<Unit>, over: Bytes)
    requires |over| <= 1
    ensures ScanUcs2(UnitBytes(us) + over, true) == (us, [])
  {
    UnitsUndoUnitBytes(us);
    assert (UnitBytes(us) + over)[..2 * |us|] == UnitBytes(us);
  }

  // ---------------------------------------------------------------------------------
  // Base64
  // ---------------------------------------------------------------------------------

  function ScanBase64(p: Bytes, flush: bool): (Symbols, Bytes) {
    var n := if flush then |p| else |p| - |p| % 3;
    (Base64.Encoded(p[..n]), if flush then [] else p[n..])
  }

  lemma Base64InTwo(p: Bytes, q: Bytes, flush: bool)
    ensures var (t, rest) := ScanBase64(p, false);
            var (u, rest') := ScanBase64(rest + q, flush);
            ScanBase64(p + q, flush) == (t + u, rest')
  {
    hide Base64.Encoded;
    var n := |p| - |p| % 3;
    var r := p[n..] + q;
    var k := if flush then |r| else |r| - |r| % 3;
    WholeGroups(|p|, |q|);
    assert (p + q)[..n + k] == p[..n] + r[..k];
    assert (p + q)[n + k..] == r[k..];
    Base64.EncodedInTwo(p[..n], r[..k]);
  }

  lemma WholeGroups(a: nat, b: nat)
    ensures var r := a % 3 + b;
      (a - a % 3) % 3 == 0 && (a - a % 3) + (r - r % 3) == a + b - (a + b) % 3
  {
  }

  // ---------------------------------------------------------------------------------
  // The decoder
  // ---------------------------------------------------------------------------------

  /** decodePending: the output, and the bytes that stay pending. */
  function Scan(enc: Encoding, p: Bytes, flush: bool): (Symbols, Bytes) {
    match enc
    case Utf8Enc => ScanUtf8(p, flush)
    case Ucs2 => ScanUcs2(p, flush)
    case Base64Enc => ScanBase64(p, flush)
  }

  class Decoder {
    const encoding: Encoding
    var pending: Bytes

    constructor (encoding: Encoding)
      ensures this.encoding == encoding && pending == []
    {
      this.encoding, pending := encoding, [];
    }

    method DecodePendingUtf8(flush: bool) returns (out: Symbols)
      modifies this
      ensures (out, pending) == ScanUtf8(old(pending), flush)
    {
      hide FullRune, DecodeRune;
      out := [];
      var rest := pending;
      assert [] + ScanUtf8(pending, flush).0 == ScanUtf8(pending, flush).0;
      while rest != []
        invariant ScanUtf8(pending, flush) == (out + ScanUtf8(rest, flush).0, ScanUtf8(rest, flush).1)
        invariant pending == old(pending)
        decreases |rest|
      {
        if !FullRune(rest) {
          if flush {
            out := out + [RuneError];
            rest := [];
          }
          break;
        }
        var (r, size) := DecodeRune(rest);
        assert out + ([r as nat] + ScanUtf8(rest[size..], flush).0) == out + [r as nat] + ScanUtf8(rest[size..], flush).0;
        out := out + [r];
        rest := rest[size..];
      }
      assert out + [] == out;
      pending := rest;
    }

    method DecodePendingUcs2(flush: bool) returns (out: Symbols)
      modifies this
      ensures (out, pending) == ScanUcs2(old(pending), flush)
    {
      var usable := |pending| - |pending| % 2;
      if !flush && usable >= 2 {
        var last := pending[usable - 2] as int + 0x100 * (pending[usable - 1] as int);
        if 0xD800 <= last <= 0xDBFF {
          usable := usable - 2;
        }
      }
      var n := usable / 2;
      assert usable == 2 * n <= |pending|;
      var units := new nat[n];
      for i := 0 to n
        invariant pending == old(pending)
        invariant forall k :: 0 <= k < i ==> units[k] == UnitAt(pending, k)
      {
        units[i] := pending[i * 2] as int + 0x100 * (pending[i * 2 + 1] as int);
      }
      out := units[..];
      assert out == Units(pending[..usable]);
      pending := if flush then [] else pending[usable..];
    }

    method DecodePendingBase64(flush: bool) returns (out: Symbols)
      modifies this
      ensures (out, pending) == ScanBase64(old(pending), flush)
    {
      var usable := |pending|;
      if !flush {
        usable := usable - usable % 3;
      }
      out := Base64.Encoded(pending[..usable]);
      pending := if flush then [] else pending[usable..];
    }

    method DecodePending(flush: bool) returns (out: Symbols)
      modifies this
      ensures (out, pending) == Scan(encoding, old(pending), flush)
    {
      match encoding {
        case Utf8Enc => out := DecodePendingUtf8(flush);
        case Ucs2 => out := DecodePendingUcs2(flush);
        case Base64Enc => out := DecodePendingBase64(flush);
      }
    }

    method Write(data: Bytes) returns (out: Symbols)
      modifies this
      ensures (out, pending) == Scan(encoding, old(pending) + data, false)
    {
      pending := pending + data;
      out := DecodePending(false);
    }

    /** `data` is empty when there is no argument. */
    method End(data: Bytes) returns (out: Symbols)
      modifies this
      ensures out == Scan(encoding, old(pending) + data, true).0 && pending == []
    {
      pending := pending + data;
      out := DecodePending(true);
      pending := [];
    }
  }

  // ---------------------------------------------------------------------------------
  // Every chunking decodes the same
  // ---------------------------------------------------------------------------------

  lemma ScanInTwo(enc: Encoding, p: Bytes, q: Bytes, flush: bool)
    ensures var (t, rest) := Scan(enc, p, false);
            var (u, rest') := Scan(enc, rest + q, flush);
            Scan(enc, p + q, flush) == (t + u, rest')
  {
    match enc {
      case Utf8Enc => Utf8InTwo(p, q, flush);
      case Ucs2 => Ucs2InTwo(p, q, flush);
      case Base64Enc => Base64InTwo(p, q, flush);
    }
  }

  function Concat(chunks: seq<Bytes>): Bytes {
    if chunks == [] then [] else chunks[0] + Concat(chunks[1..])
  }

  /** The outputs of a write for every chunk and a final end, one after the other. */
  function Outputs(enc: Encoding, pending: Bytes, chunks: seq<Bytes>, last: Bytes): Symbols
    decreases |chunks|
  {
    if chunks == [] then Scan(enc, pending + last, true).0
    else
      var (out, rest) := Scan(enc, pending + chunks[0], false);
      out + Outputs(enc, rest, chunks[1..], last)
  }

  lemma {:induction false} OutputsFrom(enc: Encoding, x: Bytes, chunks: seq<Bytes>, last: Bytes)
    ensures Scan(enc, x, false).0 + Outputs(enc, Scan(enc, x, false).1, chunks, last)
         == Scan(enc, x + Concat(chunks) + last, true).0
    decreases |chunks|
  {
    hide Scan;
    var (t, rest) := Scan(enc, x, false);
    if chunks == [] {
      ScanInTwo(enc, x, last, true);
      assert x + Concat(chunks) + last == x + last;
    } else {
      ScanInTwo(enc, x, chunks[0], false);
      var (u, rest') := Scan(enc, rest + chunks[0], false);
      assert Scan(enc, x + chunks[0], false) == (t + u, rest');
      OutputsFrom(enc, x + chunks[0], chunks[1..], last);
      assert x + chunks[0] + Concat(chunks[1..]) + last == x + Concat(chunks) + last;
      assert t + (u + Outputs(enc, rest', chunks[1..], last)) == t + u + Outputs(enc, rest', chunks[1..], last);
    }
  }

  lemma ScanNothing(enc: Encoding)
    ensures Scan(enc, [], false) == ([], [])
  {
  }

  /** For every encoding and every chunking, the outputs of the writes and of end together are the
      decoding of the whole input at once. */
  lemma ChunkingDoesNotMatter(enc: Encoding, chunks: seq<Bytes>, last: Bytes)
    ensures Outputs(enc, [], chunks, last) == Scan(enc, Concat(chunks) + last, true).0
  {
    hide Scan, Outputs;
    ScanNothing(enc);
    OutputsFrom(enc, [], chunks, last);
    assert [] + Outputs(enc, [], chunks, last) == Outputs(enc, [], chunks, last);
    assert [] + Concat(chunks) + last == Concat(chunks) + last;
  }

  /** The loop a program runs: the outputs of a fresh decoder are the whole-input decoding. */
  method DecodeChunks(enc: Encoding, chunks: seq<Bytes>, last: Bytes) returns (out: Symbols)
    ensures out == Scan(enc, Concat(chunks) + last, true).0
  {
    var d := new Decoder(enc);
    out := [];
    for i := 0 to |chunks|
      invariant d.encoding == enc
      invariant out + Outputs(enc, d.pending, chunks[i..], last) == Outputs(enc, [], chunks, last)
    {
      hide Scan;
      var more := d.Write(chunks[i]);
      assert chunks[i..][1..] == chunks[i + 1..];
      assert out + (more + Outputs(enc, d.pending, chunks[i + 1..], last)) == out + more + Outputs(enc, d.pending, chunks[i + 1..], last);
      out := out + more;
    }
    ChunkingDoesNotMatter(enc, chunks, last);
    var tail := d.End(last);
    out := out + tail;
  }

  /** A write ends on a high surrogate exactly if the last two whole units there are are both high: of
      two in a row it holds back only the second. */
  lemma WriteEndsOnHigh(p: Bytes)
    ensures var out := ScanUcs2(p, false).0;
      (out != [] && High(out[|out| - 1])) <==>
        |p| / 2 >= 2 && High(UnitAt(p, |p| / 2 - 1)) && High(UnitAt(p, |p| / 2 - 2))
  {
    var out := ScanUcs2(p, false).0;
    if out != [] {
      assert out[|out| - 1] == UnitAt(p, |out| - 1);
    }
  }

  /** But no write ever splits a pair: whatever comes next, the last unit written and the first one after
      it are not a high and a low surrogate. */
  lemma NoPairIsSplit(p: Bytes, q: Bytes)
    ensures var (out, rest) := ScanUcs2(p, false);
      out != [] && |rest + q| >= 2 && High(out[|out| - 1]) ==> !Low(UnitAt(rest + q, 0))
  {
    var (out, rest) := ScanUcs2(p, false);
    WriteEndsOnHigh(p);
    var n := UsableUcs2(p, false);
    if out != [] && High(out[|out| - 1]) {
      assert rest == p[n..] && |rest| >= 2;
      assert UnitAt(rest + q, 0) == UnitAt(p, |p| / 2 - 1);
    }
  }

  /** Two high surrogates in one write: the first one goes out, although it is the last of its output. */
  lemma TwoHighs()
    ensures ScanUcs2([0x00, 0xD8, 0x01, 0xD8], false) == ([0xD800], [0x01, 0xD8])
  {
    var p: Bytes := [0x00, 0xD8, 0x01, 0xD8];
    assert UnitAt(p, 0) == 0xD800 && UnitAt(p, 1) == 0xD801;
    assert UsableUcs2(p, false) == 2;
    assert p[..2] == [0x00, 0xD8];
    assert Units(p[..2]) == [0xD800];
  }

  /** No write puts out padding; the outputs together decode to the whole input. */
  lemma Base64Streams(chunks: seq<Bytes>, last: Bytes, p: Bytes)
    ensures Base64.Decoded(Outputs(Base64Enc, [], chunks, last)) == Base64.Some(Concat(chunks) + last)
    ensures Base64.PAD !in ScanBase64(p, false).0
  {
    hide Outputs, Base64.Encoded, Base64.Decoded;
    ChunkingDoesNotMatter(Base64Enc, chunks, last);
    var whole := Concat(chunks) + last;
    assert whole[..|whole|] == whole;
    Base64.DecodedUndoesEncoded(whole);
    NoPaddingInWrites(p);
  }

  lemma NoPaddingInWrites(p: Bytes)
    ensures Base64.PAD !in ScanBase64(p, false).0
  {
    hide Base64.Encoded;
    var n := |p| - |p| % 3;
    assert n % 3 == 0;
    Base64.PaddingAtTheEnd(p[..n]);
  }
}
