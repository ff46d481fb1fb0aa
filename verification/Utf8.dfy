/** UTF-8 (sections 3 and 4 of RFC 3629), as the standard library of the host provides it. */
module Utf8 {

  type byte = x: int | 0 <= x < 256
  type Bytes = seq<byte>

  /** A Unicode scalar value. */
  type Rune = r: int | 0 <= r < 0xD800 || 0xE000 <= r <= 0x10FFFF
  type Text = seq<Rune>

  const RuneError: Rune := 0xFFFD

  function Encode(r: Rune): (s: Bytes)
    ensures 1 <= |s| <= 4
  {
    if r < 0x80 then [r]
    else if r < 0x800 then [0xC0 + r / 0x40, 0x80 + r % 0x40]
    else if r < 0x10000 then [0xE0 + r / 0x1000, 0x80 + r / 0x40 % 0x40, 0x80 + r % 0x40]
    else [0xF0 + r / 0x40000, 0x80 + r / 0x1000 % 0x40, 0x80 + r / 0x40 % 0x40, 0x80 + r % 0x40]
  }

  function EncodeAll(t: Text): Bytes {
    if t == [] then [] else Encode(t[0]) + EncodeAll(t[1..])
  }

  predicate IsTail(b: byte) { 0x80 <= b <= 0xBF }

  /** The second byte is confined further for some first bytes, to exclude overlong forms,
      surrogates and values above U+10FFFF. */
  predicate SecondOk(first: byte, second: byte) {
    if first == 0xE0 then 0xA0 <= second <= 0xBF
    else if first == 0xED then 0x80 <= second <= 0x9F
    else if first == 0xF0 then 0x90 <= second <= 0xBF
    else if first == 0xF4 then 0x80 <= second <= 0x8F
    else IsTail(second)
  }

  /** The length a first byte announces; 0 for a byte that starts nothing. */
  function Announced(first: byte): nat {
    if first < 0x80 then 1
    else if 0xC2 <= first <= 0xDF then 2
    else if 0xE0 <= first <= 0xEF then 3
    else if 0xF0 <= first <= 0xF4 then 4
    else 0
  }

  /** s is one well-formed sequence: the grammar of section 4. */
  predicate WellFormed(s: Bytes) {
    && |s| > 0 && Announced(s[0]) == |s|
    && (|s| > 1 ==> SecondOk(s[0], s[1]))
    && (|s| > 2 ==> IsTail(s[2]))
    && (|s| > 3 ==> IsTail(s[3]))
  }

  /** The payload bits: n of a byte's value above the marker m. */
  function Bits(b: byte, m: int): int { b - m }

  function Decode(s: Bytes): (r: Rune)
    requires WellFormed(s)
  {
    if |s| == 1 then s[0]
    else if |s| == 2 then Bits(s[0], 0xC0) * 0x40 + Bits(s[1], 0x80)
    else if |s| == 3 then Bits(s[0], 0xE0) * 0x1000 + Bits(s[1], 0x80) * 0x40 + Bits(s[2], 0x80)
    else Bits(s[0], 0xF0) * 0x40000 + Bits(s[1], 0x80) * 0x1000 + Bits(s[2], 0x80) * 0x40 + Bits(s[3], 0x80)
  }

  lemma SixBits(q: int, b: int)
    requires 0 <= b < 0x40
    ensures (q * 0x40 + b) / 0x40 == q && (q * 0x40 + b) % 0x40 == b
  {
  }

  lemma EncodeDecodes(r: Rune)
    ensures WellFormed(Encode(r)) && Decode(Encode(r)) == r
  {
    if 0x800 <= r < 0x10000 {
      assert r / 0x1000 == r / 0x40 / 0x40;
    } else if 0x10000 <= r {
      var q := r / 0x40;
      assert q / 0x40 == r / 0x1000;
      assert q / 0x40 / 0x40 == r / 0x40000;
    }
  }

  lemma DecodeEncodesTwo(a: int, b: int)
    requires 2 <= a < 0x20 && 0 <= b < 0x40
    ensures Encode(a * 0x40 + b) == [0xC0 + a, 0x80 + b]
  {
    SixBits(a, b);
  }

  lemma DecodeEncodesThree(a: int, b: int, c: int)
    requires 0 <= a < 0x10 && 0 <= b < 0x40 && 0 <= c < 0x40
    requires a == 0 ==> b >= 0x20
    requires a == 0xD ==> b < 0x20
    ensures Encode(a * 0x1000 + b * 0x40 + c) == [0xE0 + a, 0x80 + b, 0x80 + c]
  {
    SixBits(a, b);
    SixBits(a * 0x40 + b, c);
    assert (a * 0x1000 + b * 0x40 + c) / 0x1000 == a;
  }

  lemma DecodeEncodesFour(a: int, b: int, c: int, d: int)
    requires 0 <= a <= 4 && 0 <= b < 0x40 && 0 <= c < 0x40 && 0 <= d < 0x40
    requires a == 0 ==> b >= 0x10
    requires a == 4 ==> b < 0x10
    ensures Encode(a * 0x40000 + b * 0x1000 + c * 0x40 + d) == [0xF0 + a, 0x80 + b, 0x80 + c, 0x80 + d]
  {
    var r := a * 0x40000 + b * 0x1000 + c * 0x40 + d;
    SixBits(a, b);
    SixBits(a * 0x40 + b, c);
    SixBits((a * 0x40 + b) * 0x40 + c, d);
    assert r / 0x1000 == a * 0x40 + b && r / 0x40000 == a;
  }

  lemma DecodeEncodes(s: Bytes)
    requires WellFormed(s)
    ensures Encode(Decode(s)) == s
  {
    match |s|
    case 1 => assert s == [s[0]];
    case 2 =>
      DecodeEncodesTwo(Bits(s[0], 0xC0), Bits(s[1], 0x80));
      assert s == [s[0], s[1]];
    case 3 =>
      DecodeEncodesThree(Bits(s[0], 0xE0), Bits(s[1], 0x80), Bits(s[2], 0x80));
      assert s == [s[0], s[1], s[2]];
    case _ =>
      DecodeEncodesFour(Bits(s[0], 0xF0), Bits(s[1], 0x80), Bits(s[2], 0x80), Bits(s[3], 0x80));
      assert s == [s[0], s[1], s[2], s[3]];
  }

  lemma {:induction false} EncodeAllAppend(s: Text, t: Text)
    ensures EncodeAll(s + t) == EncodeAll(s) + EncodeAll(t)
  {
    hide Encode;
    if s == [] {
      assert s + t == t;
    } else {
      EncodeAllAppend(s[1..], t);
      assert (s + t)[1..] == s[1..] + t;
      assert Encode(s[0]) + (EncodeAll(s[1..]) + EncodeAll(t)) == Encode(s[0]) + EncodeAll(s[1..]) + EncodeAll(t);
    }
  }

  // ---------------------------------------------------------------------------------
  // The encoding from outside
  // ---------------------------------------------------------------------------------

  /** Byte strings in dictionary order. */
  predicate Before(s: Bytes, t: Bytes) {
    t != [] && (s == [] || s[0] < t[0] || (s[0] == t[0] && Before(s[1..], t[1..])))
  }

  lemma FirstDiffers(s: Bytes, t: Bytes)
    requires s != [] && t != []
    ensures s[0] < t[0] ==> Before(s, t)
  {
  }

  lemma BeforeBehind(b: byte, s: Bytes, t: Bytes)
    requires Before(s, t)
    ensures Before([b] + s, [b] + t)
  {
    assert ([b] + s)[1..] == s && ([b] + t)[1..] == t;
  }

  /** Two numbers and their digits in base 64. */
  lemma DigitsInOrder(r: nat, q: nat)
    requires r < q
    ensures r / 0x40 < q / 0x40 || (r / 0x40 == q / 0x40 && r % 0x40 < q % 0x40)
  {
  }

  lemma TwoInOrder(r: Rune, q: Rune)
    requires 0x80 <= r < q < 0x800
    ensures Before(Encode(r), Encode(q))
  {
    DigitsInOrder(r, q);
    if r / 0x40 == q / 0x40 {
      BeforeBehind(0xC0 + r / 0x40, [0x80 + r % 0x40], [0x80 + q % 0x40]);
    }
  }

  lemma ThreeInOrder(r: Rune, q: Rune)
    requires 0x800 <= r < q < 0x10000
    ensures Before(Encode(r), Encode(q))
  {
    var (x, y) := (r / 0x40, q / 0x40);
    var (s, t) := ([0x80 + x % 0x40, 0x80 + r % 0x40], [0x80 + y % 0x40, 0x80 + q % 0x40]);
    assert r / 0x1000 == x / 0x40 && q / 0x1000 == y / 0x40;
    DigitsInOrder(r, q);
    if x < y { DigitsInOrder(x, y); }
    LowTwo(x % 0x40, r % 0x40, y % 0x40, q % 0x40);
    if x / 0x40 == y / 0x40 {
      BeforeBehind(0xE0 + x / 0x40, s, t);
      assert [0xE0 + x / 0x40] + s == Encode(r) && [0xE0 + y / 0x40] + t == Encode(q);
    }
  }

  lemma FourInOrder(r: Rune, q: Rune)
    requires 0x10000 <= r < q
    ensures Before(Encode(r), Encode(q))
  {
    hide Before;
    FourDigits(r, q);
    var (a, s) := (r / 0x40000, [0x80 + r / 0x1000 % 0x40, 0x80 + r / 0x40 % 0x40, 0x80 + r % 0x40]);
    var (a', t) := (q / 0x40000, [0x80 + q / 0x1000 % 0x40, 0x80 + q / 0x40 % 0x40, 0x80 + q % 0x40]);
    FirstDiffers(Encode(r), Encode(q));
    if a == a' {
      LowThree(r / 0x1000 % 0x40, r / 0x40 % 0x40, r % 0x40, q / 0x1000 % 0x40, q / 0x40 % 0x40, q % 0x40);
      BeforeBehind(0xF0 + a, s, t);
      assert [0xF0 + a] + s == Encode(r) && [0xF0 + a'] + t == Encode(q);
    }
  }

  lemma FourDigits(r: nat, q: nat)
    requires r < q
    ensures r / 0x40000 <= q / 0x40000
    ensures r / 0x40000 == q / 0x40000 ==>
      || r / 0x1000 % 0x40 < q / 0x1000 % 0x40
      || (r / 0x1000 % 0x40 == q / 0x1000 % 0x40
          && (r / 0x40 % 0x40 < q / 0x40 % 0x40 || (r / 0x40 % 0x40 == q / 0x40 % 0x40 && r % 0x40 < q % 0x40)))
  {
    var (x, y) := (r / 0x40, q / 0x40);
    DigitsInOrder(r, q);
    if x < y { DigitsInOrder(x, y); }
    if x / 0x40 < y / 0x40 { DigitsInOrder(x / 0x40, y / 0x40); }
    assert r / 0x1000 == x / 0x40 && q / 0x1000 == y / 0x40;
    assert r / 0x40000 == x / 0x40 / 0x40 && q / 0x40000 == y / 0x40 / 0x40;
  }

  lemma LowThree(a: int, b: int, c: int, a': int, b': int, c': int)
    requires 0 <= a < 0x40 && 0 <= b < 0x40 && 0 <= c < 0x40 && 0 <= a' < 0x40 && 0 <= b' < 0x40 && 0 <= c' < 0x40
    requires a < a' || (a == a' && (b < b' || (b == b' && c < c')))
    ensures Before([0x80 + a, 0x80 + b, 0x80 + c], [0x80 + a', 0x80 + b', 0x80 + c'])
  {
    var (s, t) := ([0x80 + a, 0x80 + b, 0x80 + c], [0x80 + a', 0x80 + b', 0x80 + c']);
    FirstDiffers(s, t);
    if a == a' {
      LowTwo(b, c, b', c');
      BeforeBehind(0x80 + a, [0x80 + b, 0x80 + c], [0x80 + b', 0x80 + c']);
      assert [0x80 + a] + [0x80 + b, 0x80 + c] == s && [0x80 + a'] + [0x80 + b', 0x80 + c'] == t;
    }
  }

  lemma LowTwo(a: int, b: int, a': int, b': int)
    requires 0 <= a < 0x40 && 0 <= b < 0x40 && 0 <= a' < 0x40 && 0 <= b' < 0x40
    ensures a < a' || (a == a' && b < b') ==> Before([0x80 + a, 0x80 + b], [0x80 + a', 0x80 + b'])
  {
    if a == a' && b < b' {
      BeforeBehind(0x80 + a, [0x80 + b], [0x80 + b']);
    }
  }

  /** Encoding keeps the order of code points (section 1 of RFC 3629). As exactly the well-formed sequences
      are encodings, no other encoding does. */
  lemma EncodeKeepsOrder(r: Rune, q: Rune)
    requires r < q
    ensures Before(Encode(r), Encode(q))
  {
    if |Encode(r)| == |Encode(q)| {
      match |Encode(r)|
      case 1 =>
      case 2 => TwoInOrder(r, q);
      case 3 => ThreeInOrder(r, q);
      case _ => FourInOrder(r, q);
    }
  }

  /** The examples of section 7 of RFC 3629: "A<not identical to><Alpha>." and the ideograph U+233B4. */
  lemma EncodingExamples()
    ensures EncodeAll([0x41, 0x2262, 0x391, 0x2E]) == [0x41, 0xE2, 0x89, 0xA2, 0xCE, 0x91, 0x2E]
    ensures Encode(0x233B4) == [0xF0, 0xA3, 0x8E, 0xB4]
  {
    assert EncodeAll([0x2E]) == [0x2E];
    assert EncodeAll([0x391, 0x2E]) == [0xCE, 0x91, 0x2E];
    assert EncodeAll([0x2262, 0x391, 0x2E]) == [0xE2, 0x89, 0xA2, 0xCE, 0x91, 0x2E];
  }

  // ---------------------------------------------------------------------------------
  // Decoding from outside
  // ---------------------------------------------------------------------------------

  /** No well-formed sequence starts the data, and the data is not cut off either. */
  ghost predicate NothingStarts(data: Bytes, cut: Bytes -> bool) {
    data != [] && !cut(data) && forall n :: 0 <= n <= |data| ==> !WellFormed(data[..n])
  }

  /** `part`, at the front of the data, is what r was read from: a well-formed sequence; or one byte at which
      nothing starts; or, when no more data will come, a sequence cut off by the end. */
  ghost predicate Reads(part: Bytes, r: int, data: Bytes, final: bool, cut: Bytes -> bool) {
    && part != [] && part <= data
    && (|| (WellFormed(part) && r == Decode(part))
        || (r == RuneError && |part| == 1 && NothingStarts(data, cut))
        || (r == RuneError && final && part == data && cut(data)))
  }

  /** The data is the parts, one for each rune of the text, and the rest; nothing is left over but a sequence
      that is cut off, and at the end of the data nothing is. */
  ghost predicate Segmented(data: Bytes, parts: seq<Bytes>, text: seq<int>, rest: Bytes, final: bool, cut: Bytes -> bool)
    decreases |parts|
  {
    && |parts| == |text|
    && if parts == [] then rest == data && (data == [] || (!final && cut(data)))
       else
         && Reads(parts[0], text[0], data, final, cut)
         && Segmented(data[|parts[0]|..], parts[1..], text[1..], rest, final, cut)
  }

  lemma {:induction false} PartsAreTheData(data: Bytes, parts: seq<Bytes>, text: seq<int>, rest: Bytes, final: bool, cut: Bytes -> bool)
    requires Segmented(data, parts, text, rest, final, cut)
    ensures Flat(parts) + rest == data
    decreases |parts|
  {
    if parts != [] {
      PartsAreTheData(data[|parts[0]|..], parts[1..], text[1..], rest, final, cut);
      assert parts[0] + data[|parts[0]|..] == data;
    }
  }

  function Flat(parts: seq<Bytes>): Bytes { if parts == [] then [] else parts[0] + Flat(parts[1..]) }

  predicate AllWellFormed(parts: seq<Bytes>) { forall i :: 0 <= i < |parts| ==> WellFormed(parts[i]) }

  lemma PrefixIsAnnounced(data: Bytes, n: nat)
    requires n <= |data|
    ensures WellFormed(data[..n]) ==> n == Announced(data[0])
  {
  }
}
