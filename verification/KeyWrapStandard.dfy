/** Section 2.2.1 of RFC 3394 in its first formulation, where the registers are shifted, and that
    crypto/legacy_cipher_helpers.go, which indexes them, computes it. */
module KeyWrapStandard {
  import opened NumberTheory
  import opened KeyWrap

  function Scale(e: nat): nat { if e == 0 then 1 else 256 * Scale(e - 1) }

  lemma {:induction false} ScalePositive(e: nat)
    ensures Scale(e) > 0
  {
    if e > 0 { ScalePositive(e - 1); }
  }

  /** Byte k of t written as eight bytes, the most significant first. */
  function CounterByte(t: nat, k: nat): bv8
    requires k < 8
  {
    ScalePositive(7 - k);
    (t / Scale(7 - k) % 256) as bv8
  }

  /** a ^ t. */
  function XorCounter(a: Half, t: nat): Half {
    seq(8, k requires 0 <= k < 8 => a[k] ^ CounterByte(t, k))
  }

  /** A and R after t steps: A[t] = MSB(64, B) ^ t, R[t][i] = R[t-1][i+1], and R[t][n] = LSB(64, B), where
      B = AES(K, A[t-1] | R[t-1][1]). */
  function Shifted(c: Cipher, a: Half, r: seq<Half>, t: nat): (w: (Half, seq<Half>))
    requires |r| > 0
    ensures |w.1| == |r|
  {
    if t == 0 then (a, r)
    else
      var (a', r') := Shifted(c, a, r, t - 1);
      var b := c.encrypt(a' + r'[0]);
      (XorCounter(b[..8], t), r'[1..] + [b[8..]])
  }

  /** P[1], ..., P[n]. */
  function EightByteBlocks(p: Bytes): seq<Half>
    requires |p| % 8 == 0
  {
    seq(|p| / 8, i requires 0 <= i < |p| / 8 => p[8 * i..8 * i + 8])
  }

  // ---------------------------------------------------------------------------------
  // The counter
  // ---------------------------------------------------------------------------------

  lemma {:induction false} BigEndianAt(t: nat, count: nat, k: nat)
    requires k < count
    ensures Scale(count - 1 - k) > 0 && BigEndian(t, count)[k] == Byte(t / Scale(count - 1 - k))
  {
    hide Byte;
    ScalePositive(count - 1 - k);
    if k < count - 1 {
      BigEndianAt(t / 256, count - 1, k);
      DivTwice(t, 256, Scale(count - 2 - k));
    }
  }

  lemma XorIsXorCounter(a: Half, t: nat)
    ensures Xor(a, t) == XorCounter(a, t)
  {
    forall k | 0 <= k < 8 ensures Xor(a, t)[k] == XorCounter(a, t)[k] {
      BigEndianAt(t, 8, k);
    }
  }

  // ---------------------------------------------------------------------------------
  // The registers
  // ---------------------------------------------------------------------------------

  /** Register i comes first. */
  function Rotated(r: seq<Half>, i: nat): seq<Half>
    requires i <= |r|
  {
    r[i..] + r[..i]
  }

  lemma RotatedStep(r: seq<Half>, i: nat, low: Half)
    requires i < |r|
    ensures Rotated(r, i)[0] == r[i]
    ensures Rotated(r, i)[1..] + [low] == Rotated(r[i := low], i + 1)
  {
  }

  lemma RotatedFully(r: seq<Half>)
    ensures Rotated(r, |r|) == r == Rotated(r, 0)
  {
  }

  /** After i steps of round j the indexed registers are the shifted ones, turned by i places. */
  lemma {:induction false} WoundIsShifted(c: Cipher, a: Half, r: seq<Half>, j: nat, i: nat)
    requires |r| > 0 && i <= |r|
    ensures 0 <= |r| * j + i
    ensures var w := Wound(c, Registers(a, r), j, i);
      Shifted(c, a, r, |r| * j + i) == (w.a, Rotated(w.r, i))
    decreases j, i
  {
    hide Xor, XorCounter, Rotated;
    MulNonNegative(|r|, j);
    RotatedFully(r);
    if i > 0 {
      WoundIsShifted(c, a, r, j, i - 1);
      var w := Wound(c, Registers(a, r), j, i - 1);
      var b := c.encrypt(Join(w.a, w.r[i - 1]));
      RotatedStep(w.r, i - 1, Low(b));
      XorIsXorCounter(High(b), |r| * j + i);
    } else if j > 0 {
      MulDistributes(|r|, j, 1);
      WoundIsShifted(c, a, r, j - 1, |r|);
      RotatedFully(Wound(c, Registers(a, r), j - 1, |r|).r);
    }
  }

  lemma BlocksAreEightBytes(p: Bytes)
    requires |p| % 8 == 0
    ensures Blocks(p) == EightByteBlocks(p)
  {
    forall i | 0 <= i < |p| / 8 ensures Blocks(p)[i] == EightByteBlocks(p)[i] {
      BlockAt(p, i);
    }
  }

  lemma WrappingSucceeds(block: Option<Cipher>, p: Bytes)
    ensures Wrapped(block, p).Ok? <==> |p| >= 16 && |p| % 8 == 0 && block.Some?
  {
    hide Wound;
  }

  lemma SplitResult(a: Half, r: seq<Half>)
    ensures var out := a + Flatten(r);
      |out| == 8 * |r| + 8 && out[..8] == a && out[8..] == Flatten(r) && EightByteBlocks(out[8..]) == r
  {
    hide EightByteBlocks;
    BlocksFlatten(r);
    BlocksAreEightBytes(Flatten(r));
    assert (a + Flatten(r))[8..] == Flatten(r);
  }

  /** Wrapping is the standard's: with n blocks and counters 1 to 6n, starting from eight bytes A6, the
      result is A followed by the registers in order. */
  lemma WrappedIsStandard(c: Cipher, p: Bytes)
    requires |p| >= 16 && |p| % 8 == 0
    ensures Wrapped(Some(c), p).Ok?
    ensures var n := |p| / 8;
      var (a, r) := Shifted(c, seq(8, _ => 0xA6), EightByteBlocks(p), 6 * n);
      var out := Wrapped(Some(c), p).value;
      |out| == |p| + 8 && out[..8] == a && EightByteBlocks(out[8..]) == r
  {
    hide Wound, Shifted, Flatten, Blocks, EightByteBlocks;
    var n := |p| / 8;
    BlocksAreEightBytes(p);
    var start := Blocks(p);
    assert IV == seq(8, _ => 0xA6);
    WoundIsShifted(c, IV, start, 5, n);
    var w := Wound(c, Registers(IV, start), 5, n);
    RotatedFully(w.r);
    SplitResult(w.a, w.r);
  }

  // ---------------------------------------------------------------------------------
  // The identity as the block cipher
  // ---------------------------------------------------------------------------------

  /** a with the counters 1 to t xored in. */
  function XorUpTo(a: Half, t: nat): Half {
    if t == 0 then a else XorCounter(XorUpTo(a, t - 1), t)
  }

  /** The registers moved on by t places. */
  function Turned(r: seq<Half>, t: nat): seq<Half>
    requires |r| > 0
  {
    Rotated(r, t % |r|)
  }

  lemma TurnedStep(r: seq<Half>, t: nat)
    requires |r| > 0 && t > 0
    ensures Turned(r, t - 1)[1..] + [Turned(r, t - 1)[0]] == Turned(r, t)
  {
    var i := (t - 1) % |r|;
    DivModEq(t - 1, |r|);
    if i + 1 < |r| {
      ModUnique(t, |r|, (t - 1) / |r|, i + 1);
    } else {
      MulDistributes(|r|, (t - 1) / |r|, 1);
      ModUnique(t, |r|, (t - 1) / |r| + 1, 0);
      RotatedFully(r);
    }
    RotatedStep(r, i, r[i]);
    assert r[i := r[i]] == r;
  }

  lemma {:induction false} IdentityShifts(c: Cipher, a: Half, r: seq<Half>, t: nat)
    requires |r| > 0 && forall b: Block :: c.encrypt(b) == b
    ensures Shifted(c, a, r, t) == (XorUpTo(a, t), Turned(r, t))
  {
    hide XorCounter, Turned;
    if t == 0 {
      TurnedNotAtAll(r);
    } else {
      IdentityShifts(c, a, r, t - 1);
      TurnedStep(r, t);
      var (a', r') := Shifted(c, a, r, t - 1);
      assert (a' + r'[0])[..8] == a' && (a' + r'[0])[8..] == r'[0];
    }
  }

  lemma TurnedNotAtAll(r: seq<Half>)
    requires |r| > 0
    ensures Turned(r, 0) == r
  {
    RotatedFully(r);
  }

  /** With the identity for a block cipher, wrapping leaves the plaintext and puts eight bytes A6, with
      all counters xored in, before it. */
  lemma IdentityWraps(c: Cipher, p: Bytes)
    requires |p| >= 16 && |p| % 8 == 0 && forall b: Block :: c.encrypt(b) == b
    ensures Wrapped(Some(c), p) == Ok(XorUpTo(seq(8, _ => 0xA6), 6 * (|p| / 8)) + p)
  {
    var n := |p| / 8;
    WrappedIsStandard(c, p);
    var r := EightByteBlocks(p);
    IdentityShifts(c, seq(8, _ => 0xA6), r, 6 * n);
    ModUnique(6 * n, n, 6, 0);
    RotatedFully(r);
    var out := Wrapped(Some(c), p).value;
    hide Wrapped, XorUpTo, Shifted;
    BlocksAreEightBytes(p);
    BlocksAreEightBytes(out[8..]);
    FlattenBlocks(p);
    FlattenBlocks(out[8..]);
    assert out == out[..8] + out[8..];
  }

  lemma SmallQuotient(t: nat, k: nat)
    requires k < 8 && t < 256
    ensures Scale(7 - k) > 0 && t / Scale(7 - k) % 256 == if k < 7 then 0 else t
  {
    ScalePositive(7 - k);
    if k < 7 {
      ScalePositive(6 - k);
      MulAtLeast(256, Scale(6 - k));
      DivUnique(t, Scale(7 - k), 0, t);
    }
  }

  lemma SmallCounterByte(t: bv8, k: nat)
    requires k < 8
    ensures CounterByte(t as nat, k) == if k < 7 then 0 else t
  {
    hide Scale;
    BackAndForth(t);
    BackAndForth(0);
    SmallQuotient(t as nat, k);
  }

  lemma SmallCounter(a: Half, t: bv8)
    ensures XorCounter(a, t as nat) == a[7 := a[7] ^ t]
  {
    hide CounterByte;
    var x := XorCounter(a, t as nat);
    forall k | 0 <= k < 8 ensures x[k] == a[7 := a[7] ^ t][k] {
      SmallCounterByte(t, k);
      XorZero(a[k]);
    }
  }

  lemma XorZero(x: bv8)
    ensures x ^ 0 == x
  {
  }

  /** For two blocks: A6 seven times, then AA. */
  lemma IdentityWrapsTwoBlocks(c: Cipher, p: Bytes)
    requires |p| == 16 && forall b: Block :: c.encrypt(b) == b
    ensures Wrapped(Some(c), p) == Ok([0xA6, 0xA6, 0xA6, 0xA6, 0xA6, 0xA6, 0xA6, 0xAA] + p)
  {
    hide XorCounter;
    IdentityWraps(c, p);
    var a: Half := seq(8, _ => 0xA6);
    SmallUpTo(a, 12);
    assert a[7 := UpTo(12) ^ a[7]] == [0xA6, 0xA6, 0xA6, 0xA6, 0xA6, 0xA6, 0xA6, 0xAA];
  }

  /** The counters 1 to t xored together. */
  function UpTo(t: bv8): bv8
    decreases t as nat
  {
    if t == 0 then 0 else UpTo(t - 1) ^ t
  }

  lemma {:induction false} SmallUpTo(a: Half, t: bv8)
    ensures XorUpTo(a, t as nat) == a[7 := UpTo(t) ^ a[7]]
    decreases t as nat
  {
    hide XorCounter;
    if t == 0 {
      assert a[7 := a[7]] == a;
    } else {
      SmallUpTo(a, t - 1);
      SmallCounter(XorUpTo(a, (t - 1) as nat), t);
      XorOrder(UpTo(t - 1), a[7], t);
    }
  }

  lemma XorOrder(x: bv8, y: bv8, z: bv8)
    ensures (x ^ y) ^ z == (x ^ z) ^ y
  {
  }
}
