/** crypto/legacy_cipher_helpers.go: AES key wrap (sections 2.2.1 and 2.2.2 of RFC 3394) and PKCS #7
    padding. The block cipher is any permutation of 16-byte blocks with its inverse. */
module KeyWrap {

  import opened NumberTheory

  type Bytes = seq<bv8>
  type Half = b: Bytes | |b| == 8 witness [0, 0, 0, 0, 0, 0, 0, 0]
  type Block = b: Bytes | |b| == 16 witness [0, 0, 0, 0, 0, 0, 0, 0, 0, 0, 0, 0, 0, 0, 0, 0]

  datatype Option<T> = None | Some(value: T)
  datatype Error = BadPlaintextLength | BadCiphertextLength | BadKey | IntegrityCheckFailed | BadPadding
  datatype Result = Ok(value: Bytes) | Err(error: Error)

  datatype Cipher = Cipher(encrypt: Block -> Block, decrypt: Block -> Block)

  ghost predicate IsCipher(c: Cipher) {
    && (forall b: Block :: c.decrypt(c.encrypt(b)) == b)
    && (forall b: Block :: c.encrypt(c.decrypt(b)) == b)
  }

  const IV: Half := [0xA6, 0xA6, 0xA6, 0xA6, 0xA6, 0xA6, 0xA6, 0xA6]

  function Join(a: Half, b: Half): Block { a + b }
  function High(b: Block): Half { b[..8] }
  function Low(b: Block): Half { b[8..] }

  lemma HalvesJoin(b: Block)
    ensures Join(High(b), Low(b)) == b
  {
  }

  lemma JoinHalves(a: Half, b: Half)
    ensures High(Join(a, b)) == a && Low(Join(a, b)) == b
  {
  }

  // ---------------------------------------------------------------------------------
  // xorT
  // ---------------------------------------------------------------------------------

  function Byte(t: nat): bv8 { (t % 256) as bv8 }

  /** The last `count` bytes of t, most significant first. */
  function BigEndian(t: nat, count: nat): (s: Bytes)
    ensures |s| == count
  {
    if count == 0 then [] else BigEndian(t / 256, count - 1) + [Byte(t)]
  }

  function Xor(a: Half, t: nat): (s: Half) {
    var b := BigEndian(t, 8);
    seq(8, i requires 0 <= i < 8 => a[i] ^ b[i])
  }

  lemma XorTwice(a: Half, t: nat)
    ensures Xor(Xor(a, t), t) == a
  {
    var b := BigEndian(t, 8);
    forall i | 0 <= i < 8 ensures Xor(Xor(a, t), t)[i] == a[i] {
      XorCancels(a[i], b[i]);
    }
  }

  lemma XorCancels(x: bv8, y: bv8)
    ensures (x ^ y) ^ y == x
  {
  }

  /** xorT on the first eight bytes of a buffer. */
  method XorT(a: array<bv8>, t: nat)
    requires a.Length == 16
    modifies a
    ensures a[..8] == Xor(old(a[..8]), t)
    ensures a[8..] == old(a[8..])
  {
    hide Byte;
    ghost var bytes := BigEndian(t, 8);
    var i, u := 7, t;
    while i >= 0
      invariant -1 <= i <= 7
      invariant BigEndian(u, i + 1) == bytes[..i + 1]
      invariant forall k :: i < k < 8 ==> a[k] == old(a[k]) ^ bytes[k]
      invariant forall k :: 0 <= k <= i || 8 <= k < 16 ==> a[k] == old(a[k])
    {
      assert bytes[i] == bytes[..i + 1][i] == Byte(u);
      assert BigEndian(u / 256, i) == BigEndian(u, i + 1)[..i] == bytes[..i + 1][..i] == bytes[..i];
      a[i] := a[i] ^ Byte(u);
      u := u / 256;
      i := i - 1;
    }
    assert a[..8] == Xor(old(a[..8]), t);
  }

  // ---------------------------------------------------------------------------------
  // The registers A, R[1], ..., R[n] and the steps that update them
  // ---------------------------------------------------------------------------------

  datatype Registers = Registers(a: Half, r: seq<Half>)

  /** t for step i, counted from 1, of round j. */
  function StepNumber(n: nat, j: nat, i: nat): nat { n * j + i }

  /** A = MSB(64, B) ^ t and R[i] = LSB(64, B), where B = AES(K, A | R[i]). */
  function WrapStep(c: Cipher, w: Registers, i: nat, t: nat): Registers
    requires i < |w.r|
  {
    var b := c.encrypt(Join(w.a, w.r[i]));
    Registers(Xor(High(b), t), w.r[i := Low(b)])
  }

  /** B = AES-1(K, (A ^ t) | R[i]), A = MSB(64, B) and R[i] = LSB(64, B). */
  function UnwrapStep(c: Cipher, w: Registers, i: nat, t: nat): Registers
    requires i < |w.r|
  {
    var b := c.decrypt(Join(Xor(w.a, t), w.r[i]));
    Registers(High(b), w.r[i := Low(b)])
  }

  lemma UnwrapStepUndoes(c: Cipher, w: Registers, i: nat, t: nat)
    requires IsCipher(c) && i < |w.r|
    ensures |WrapStep(c, w, i, t).r| == |w.r| && UnwrapStep(c, WrapStep(c, w, i, t), i, t) == w
  {
    hide Xor, Join, High, Low;
    var b := c.encrypt(Join(w.a, w.r[i]));
    HalvesJoin(b);
    XorTwice(High(b), t);
    JoinHalves(w.a, w.r[i]);
    assert w.r[i := Low(b)][i := w.r[i]] == w.r;
  }

  lemma WrapStepUndoes(c: Cipher, w: Registers, i: nat, t: nat)
    requires IsCipher(c) && i < |w.r|
    ensures |UnwrapStep(c, w, i, t).r| == |w.r| && WrapStep(c, UnwrapStep(c, w, i, t), i, t) == w
  {
    hide Xor, Join, High, Low;
    var b := c.decrypt(Join(Xor(w.a, t), w.r[i]));
    HalvesJoin(b);
    XorTwice(w.a, t);
    JoinHalves(Xor(w.a, t), w.r[i]);
    assert w.r[i := Low(b)][i := w.r[i]] == w.r;
  }

  /** The registers after j full rounds and i more steps. */
  function Wound(c: Cipher, w: Registers, j: nat, i: nat): (w': Registers)
    requires i <= |w.r|
    ensures |w'.r| == |w.r|
    decreases j, i
  {
    if i > 0 then WrapStep(c, Wound(c, w, j, i - 1), i - 1, StepNumber(|w.r|, j, i))
    else if j > 0 then Wound(c, w, j - 1, |w.r|)
    else w
  }

  /** The registers after undoing step i of round j and everything before it, latest first. */
  function Unwound(c: Cipher, w: Registers, j: nat, i: nat): (w': Registers)
    requires i <= |w.r|
    ensures |w'.r| == |w.r|
    decreases j, i
  {
    if i > 0 then Unwound(c, UnwrapStep(c, w, i - 1, StepNumber(|w.r|, j, i)), j, i - 1)
    else if j > 0 then Unwound(c, w, j - 1, |w.r|)
    else w
  }

  lemma {:induction false} WindThenUnwind(c: Cipher, w: Registers, j: nat, i: nat)
    requires IsCipher(c) && i <= |w.r|
    ensures Unwound(c, Wound(c, w, j, i), j, i) == w
    decreases j, i
  {
    hide WrapStep, UnwrapStep, StepNumber, IsCipher;
    if i > 0 {
      WindThenUnwind(c, w, j, i - 1);
      UnwrapStepUndoes(c, Wound(c, w, j, i - 1), i - 1, StepNumber(|w.r|, j, i));
    } else if j > 0 {
      WindThenUnwind(c, w, j - 1, |w.r|);
    }
  }

  lemma {:induction false} UnwindThenWind(c: Cipher, w: Registers, j: nat, i: nat)
    requires IsCipher(c) && i <= |w.r|
    ensures Wound(c, Unwound(c, w, j, i), j, i) == w
    decreases j, i
  {
    hide WrapStep, UnwrapStep, StepNumber, IsCipher;
    if i > 0 {
      WrapStepUndoes(c, w, i - 1, StepNumber(|w.r|, j, i));
      UnwindThenWind(c, UnwrapStep(c, w, i - 1, StepNumber(|w.r|, j, i)), j, i - 1);
    } else if j > 0 {
      UnwindThenWind(c, w, j - 1, |w.r|);
    }
  }

  // ---------------------------------------------------------------------------------
  // Bytes and their eight-byte blocks
  // ---------------------------------------------------------------------------------

  function Blocks(p: Bytes): (r: seq<Half>)
    requires |p| % 8 == 0
    ensures |r| == |p| / 8
  {
    if p == [] then [] else var first: Half := p[..8]; [first] + Blocks(p[8..])
  }

  function Flatten(r: seq<Half>): Bytes {
    if r == [] then [] else r[0] + Flatten(r[1..])
  }

  lemma {:induction false} FlattenBlocks(p: Bytes)
    requires |p| % 8 == 0
    ensures Flatten(Blocks(p)) == p
  {
    if p != [] {
      FlattenBlocks(p[8..]);
      assert Blocks(p)[1..] == Blocks(p[8..]);
    }
  }

  lemma {:induction false} BlocksFlatten(r: seq<Half>)
    ensures |Flatten(r)| == 8 * |r| && Blocks(Flatten(r)) == r
  {
    if r != [] {
      BlocksFlatten(r[1..]);
      assert Flatten(r)[..8] == r[0] && Flatten(r)[8..] == Flatten(r[1..]);
    }
  }

  lemma {:induction false} BlockAt(p: Bytes, i: nat)
    requires |p| % 8 == 0 && i < |p| / 8
    ensures Blocks(p)[i] == p[i * 8..(i + 1) * 8]
  {
    if i > 0 {
      BlockAt(p[8..], i - 1);
      assert p[8..][(i - 1) * 8..i * 8] == p[i * 8..(i + 1) * 8];
    }
  }

  lemma {:induction false} FlattenAppend(r: seq<Half>, b: Half)
    ensures Flatten(r + [b]) == Flatten(r) + b
  {
    if r == [] {
      assert Flatten([b]) == b + Flatten([]) == b;
    } else {
      FlattenAppend(r[1..], b);
      assert (r + [b])[1..] == r[1..] + [b];
    }
  }

  // ---------------------------------------------------------------------------------
  // aesKeyWrap and aesKeyUnwrap
  // ---------------------------------------------------------------------------------

  function Wrapped(block: Option<Cipher>, plaintext: Bytes): Result {
    if |plaintext| < 16 || |plaintext| % 8 != 0 then Err(BadPlaintextLength)
    else if block.None? then Err(BadKey)
    else
      var w := Wound(block.value, Registers(IV, Blocks(plaintext)), 5, |plaintext| / 8);
      Ok(w.a + Flatten(w.r))
  }

  function Unwrapped(block: Option<Cipher>, ciphertext: Bytes): Result {
    if |ciphertext| < 24 || |ciphertext| % 8 != 0 then Err(BadCiphertextLength)
    else if block.None? then Err(BadKey)
    else
      var w := Unwound(block.value, Registers(ciphertext[..8], Blocks(ciphertext[8..])), 5, |ciphertext| / 8 - 1);
      if w.a != IV then Err(IntegrityCheckFailed) else Ok(Flatten(w.r))
  }

  /** copy(to, from) for buffers of the lengths at hand. */
  method Copy(to: array<bv8>, from: Bytes)
    requires to.Length >= |from|
    modifies to
    ensures to[..|from|] == from && to[|from|..] == old(to[|from|..])
  {
    forall k | 0 <= k < |from| { to[k] := from[k]; }
  }

  method LoadBlocks(p: Bytes) returns (r: array<Half>)
    requires |p| % 8 == 0
    ensures fresh(r) && r[..] == Blocks(p)
  {
    var n := |p| / 8;
    r := new Half[n](i requires 0 <= i < n => p[i * 8..(i + 1) * 8]);
    forall i | 0 <= i < n ensures r[i] == Blocks(p)[i] {
      BlockAt(p, i);
    }
  }

  /** One pass of the inner loop of aesKeyWrap. */
  method WrapOnce(c: Cipher, a: array<bv8>, r: array<Half>, buf: array<bv8>, i: nat, t: nat)
    requires a.Length == 8 && buf.Length == 16 && a != buf && i < r.Length
    requires (r as object) != a && (r as object) != buf
    modifies a, r, buf
    ensures Registers(a[..], r[..]) == WrapStep(c, Registers(old(a[..]), old(r[..])), i, t)
  {
    hide Xor;
    ghost var w := Registers(a[..], r[..]);
    var b := c.encrypt(Join(a[..], r[i]));
    Copy(buf, b);
    assert buf[..8] == High(b) && buf[8..] == Low(b);
    XorT(buf, t);
    Copy(a, buf[..8]);
    r[i] := buf[8..];
    assert a[..] == a[..8];
    assert r[..] == w.r[i := Low(b)];
  }

  /** One pass of the inner loop of aesKeyUnwrap. */
  method UnwrapOnce(c: Cipher, a: array<bv8>, r: array<Half>, buf: array<bv8>, i: nat, t: nat)
    requires a.Length == 8 && buf.Length == 16 && a != buf && i < r.Length
    requires (r as object) != a && (r as object) != buf
    modifies a, r, buf
    ensures Registers(a[..], r[..]) == UnwrapStep(c, Registers(old(a[..]), old(r[..])), i, t)
  {
    hide Xor;
    ghost var w := Registers(a[..], r[..]);
    Copy(buf, a[..]);
    assert buf[..8] == w.a;
    XorT(buf, t);
    var b := c.decrypt(Join(buf[..8], r[i]));
    Copy(buf, b);
    assert buf[..8] == High(b) && buf[8..] == Low(b);
    Copy(a, buf[..8]);
    r[i] := buf[8..];
    assert a[..] == a[..8];
    assert r[..] == w.r[i := Low(b)];
  }

  method Concatenate(r: array<Half>, first: Bytes) returns (out: Bytes)
    ensures out == first + Flatten(r[..])
  {
    out := first;
    for i := 0 to r.Length
      invariant out == first + Flatten(r[..i])
    {
      FlattenAppend(r[..i], r[i]);
      assert r[..i + 1] == r[..i] + [r[i]];
      out := out + r[i];
    }
    assert r[..r.Length] == r[..];
  }

  /** `block` is what aes.NewCipher makes of the key: nothing when the key has a wrong size. */
  method AesKeyWrap(block: Option<Cipher>, plaintext: Bytes) returns (res: Result)
    ensures res == Wrapped(block, plaintext)
  {
    hide WrapStep, StepNumber, Flatten, Blocks;
    if |plaintext| < 16 || |plaintext| % 8 != 0 {
      return Err(BadPlaintextLength);
    }
    if block.None? {
      return Err(BadKey);
    }
    var c := block.value;
    var n := |plaintext| / 8;
    var a := new bv8[8](_ => 0xA6);
    var r := LoadBlocks(plaintext);
    ghost var start := Registers(IV, Blocks(plaintext));
    assert a[..] == IV;

    var buf := new bv8[16];
    for j := 0 to 6
      invariant Registers(a[..], r[..]) == (if j == 0 then start else Wound(c, start, j - 1, n))
    {
      for i := 0 to n
        invariant Registers(a[..], r[..]) == Wound(c, start, j, i)
      {
        WrapOnce(c, a, r, buf, i, StepNumber(n, j, i + 1));
      }
    }

    var out := Concatenate(r, a[..]);
    res := Ok(out);
  }

  method AesKeyUnwrap(block: Option<Cipher>, ciphertext: Bytes) returns (res: Result)
    ensures res == Unwrapped(block, ciphertext)
  {
    hide UnwrapStep, StepNumber, Flatten, Blocks;
    if |ciphertext| < 24 || |ciphertext| % 8 != 0 {
      return Err(BadCiphertextLength);
    }
    if block.None? {
      return Err(BadKey);
    }
    var c := block.value;
    var n := |ciphertext| / 8 - 1;
    var a := new bv8[8](i requires 0 <= i < 8 => ciphertext[i]);
    var r := LoadBlocks(ciphertext[8..]);
    ghost var start := Registers(ciphertext[..8], Blocks(ciphertext[8..]));
    assert a[..] == start.a;

    var buf := new bv8[16];
    for j := 6 downto 0
      invariant Unwound(c, start, 5, n) ==
                if j > 0 then Unwound(c, Registers(a[..], r[..]), j - 1, n) else Registers(a[..], r[..])
    {
      for i := n downto 0
        invariant Unwound(c, Registers(a[..], r[..]), j, i) == Unwound(c, start, 5, n)
      {
        UnwrapOnce(c, a, r, buf, i, StepNumber(n, j, i + 1));
      }
    }
    if a[..] != IV {
      return Err(IntegrityCheckFailed);
    }

    var out := Concatenate(r, []);
    res := Ok(out);
  }

  lemma {:induction false} UnwrapUndoesWrap(block: Option<Cipher>, plaintext: Bytes)
    requires block.Some? ==> IsCipher(block.value)
    requires Wrapped(block, plaintext).Ok?
    ensures Unwrapped(block, Wrapped(block, plaintext).value) == Ok(plaintext)
  {
    hide Wound, Unwound, Blocks, Flatten;
    var n := |plaintext| / 8;
    var start := Registers(IV, Blocks(plaintext));
    var w := Wound(block.value, start, 5, n);
    var x := w.a + Flatten(w.r);
    BlocksFlatten(w.r);
    assert x[..8] == w.a && x[8..] == Flatten(w.r);
    WindThenUnwind(block.value, start, 5, n);
    FlattenBlocks(plaintext);
  }

  /** The only ciphertext that unwraps to p is the wrapping of p. */
  lemma {:induction false} WrapUndoesUnwrap(block: Option<Cipher>, ciphertext: Bytes)
    requires block.Some? ==> IsCipher(block.value)
    requires Unwrapped(block, ciphertext).Ok?
    ensures Wrapped(block, Unwrapped(block, ciphertext).value) == Ok(ciphertext)
  {
    hide Wound, Unwound, Blocks, Flatten;
    var n := |ciphertext| / 8 - 1;
    var start := Registers(ciphertext[..8], Blocks(ciphertext[8..]));
    var w := Unwound(block.value, start, 5, n);
    BlocksFlatten(w.r);
    UnwindThenWind(block.value, start, 5, n);
    FlattenBlocks(ciphertext[8..]);
    assert ciphertext == ciphertext[..8] + ciphertext[8..];
  }

  /** Unwrapping accepts exactly what wrapping produces. */
  lemma UnwrapAcceptsExactlyWrappings(block: Option<Cipher>, ciphertext: Bytes)
    requires block.Some? ==> IsCipher(block.value)
    ensures Unwrapped(block, ciphertext).Ok? <==> exists p :: Wrapped(block, p) == Ok(ciphertext)
  {
    if Unwrapped(block, ciphertext).Ok? {
      WrapUndoesUnwrap(block, ciphertext);
    }
    if p :| Wrapped(block, p) == Ok(ciphertext) {
      UnwrapUndoesWrap(block, p);
    }
  }

  // ---------------------------------------------------------------------------------
  // pkcs7Pad and pkcs7Unpad
  // ---------------------------------------------------------------------------------

  function PadLength(data: Bytes, blockSize: nat): nat
    requires blockSize > 0
  {
    blockSize - |data| % blockSize
  }

  function Repeat(b: bv8, count: nat): (s: Bytes)
    ensures |s| == count && forall i :: 0 <= i < count ==> s[i] == b
  {
    seq(count, _ => b)
  }

  function Padded(data: Bytes, blockSize: nat): Bytes
    requires blockSize > 0
  {
    data + Repeat(Byte(PadLength(data, blockSize)), PadLength(data, blockSize))
  }

  /** Whether data ends with `count` bytes of value `count`. */
  predicate EndsWithPadding(data: Bytes, blockSize: nat, count: nat) {
    && 0 < count <= blockSize && count <= |data|
    && forall i :: |data| - count <= i < |data| ==> data[i] as nat == count
  }

  method Pkcs7Pad(data: Bytes, blockSize: nat) returns (out: Bytes)
    requires blockSize > 0
    ensures out == Padded(data, blockSize)
    ensures |out| % blockSize == 0 && data < out
    ensures 1 <= |out| - |data| <= blockSize && forall i :: |data| <= i < |out| ==> out[i] as nat == (|out| - |data|) % 256
  {
    hide Byte;
    var padLen := blockSize - |data| % blockSize;
    out := data + Repeat(Byte(padLen), padLen);
    PaddedLength(|data|, blockSize);
    ByteIsRemainder(padLen);
  }

  lemma PaddedLength(length: nat, blockSize: nat)
    requires blockSize > 0
    ensures (length + (blockSize - length % blockSize)) % blockSize == 0
  {
    DivModEq(length, blockSize);
    MulDistributes(blockSize, length / blockSize, 1);
    ModUnique(length + (blockSize - length % blockSize), blockSize, length / blockSize + 1, 0);
  }

  function Unpadded(data: Bytes, blockSize: nat): Result
    requires blockSize > 0
  {
    if |data| > 0 && |data| % blockSize == 0 && EndsWithPadding(data, blockSize, data[|data| - 1] as nat)
    then Ok(data[..|data| - data[|data| - 1] as nat])
    else Err(BadPadding)
  }

  method Pkcs7Unpad(data: Bytes, blockSize: nat) returns (res: Result)
    requires blockSize > 0
    ensures res == Unpadded(data, blockSize)
  {
    if |data| == 0 || |data| % blockSize != 0 {
      return Err(BadPadding);
    }
    var padLen := data[|data| - 1] as nat;
    if padLen <= 0 || padLen > blockSize || padLen > |data| {
      return Err(BadPadding);
    }
    for i := |data| - padLen to |data|
      invariant forall k :: |data| - padLen <= k < i ==> data[k] as nat == padLen
    {
      if data[i] as nat != padLen {
        return Err(BadPadding);
      }
    }
    res := Ok(data[..|data| - padLen]);
  }

  /** Unpadding undoes padding exactly when the pad length fits in the byte that records it, as it
      does for the block sizes 8 and 16. */
  lemma UnpadUndoesPad(data: Bytes, blockSize: nat)
    requires blockSize > 0
    ensures Unpadded(Padded(data, blockSize), blockSize) == Ok(data) <==> PadLength(data, blockSize) <= 255
  {
    hide Byte, PadLength, Unpadded;
    var padLen := PadLength(data, blockSize);
    PadLengthFits(data, blockSize);
    ByteValue(padLen);
    UnpadTail(data, Byte(padLen), padLen, blockSize);
  }

  lemma PadLengthFits(data: Bytes, blockSize: nat)
    requires blockSize > 0
    ensures 0 < PadLength(data, blockSize) <= blockSize && (|data| + PadLength(data, blockSize)) % blockSize == 0
  {
    PaddedLength(|data|, blockSize);
  }

  /** Unpadding a tail of equal bytes gives what is before it exactly if the byte says its length. */
  lemma UnpadTail(data: Bytes, b: bv8, padLen: nat, blockSize: nat)
    requires 0 < padLen <= blockSize && (|data| + padLen) % blockSize == 0
    ensures Unpadded(data + Repeat(b, padLen), blockSize) == Ok(data) <==> b as nat == padLen
  {
    var out := data + Repeat(b, padLen);
    assert out[|out| - 1] == b;
    if b as nat == padLen {
      assert out[..|out| - padLen] == data;
    }
  }

  lemma ByteValue(t: nat)
    ensures Byte(t) as nat == t <==> t < 256
  {
    ByteRemainder(t % 256);
  }

  lemma ByteRemainder(r: nat)
    requires r < 256
    ensures (r as bv8) as nat == r
  {
    var b := ByteFor(r);
    BackAndForth(b);
  }

  /** The r-th byte, by counting up. */
  lemma {:induction false} ByteFor(r: nat) returns (b: bv8)
    requires r < 256
    ensures b as nat == r
  {
    if r == 0 {
      b := 0;
    } else {
      var c := ByteFor(r - 1);
      NextByte(c);
      b := c + 1;
    }
  }

  lemma NextByte(b: bv8)
    requires b as nat < 255
    ensures (b + 1) as nat == b as nat + 1
  {
  }

  lemma BackAndForth(b: bv8)
    ensures (b as nat) as bv8 == b
  {
  }

  /** A block of 256 bytes is padded with zeros, which do not unpad. */
  lemma LongPaddingIsLost()
    ensures Unpadded(Padded([], 256), 256) == Err(BadPadding)
  {
    hide Byte;
    ByteRemainder(0);
    assert Byte(256) as nat == 0 by { ByteIsRemainder(256); }
    assert Padded([], 256)[255] == Byte(256);
  }

  lemma ByteIsRemainder(t: nat)
    ensures Byte(t) as nat == t % 256
  {
    ByteRemainder(t % 256);
  }

  lemma BodyRemainder(length: nat, blockSize: nat, padLen: nat)
    requires 0 < padLen <= blockSize && padLen <= length && length % blockSize == 0
    ensures blockSize - (length - padLen) % blockSize == padLen
  {
    DivModEq(length, blockSize);
    MulDistributes(blockSize, length / blockSize, 1);
    if padLen == blockSize {
      ModUnique(length - padLen, blockSize, length / blockSize - 1, 0);
    } else {
      ModUnique(length - padLen, blockSize, length / blockSize - 1, blockSize - padLen);
    }
  }

  lemma PadUndoesUnpad(data: Bytes, blockSize: nat)
    requires blockSize > 0
    requires Unpadded(data, blockSize).Ok?
    ensures Padded(Unpadded(data, blockSize).value, blockSize) == data
  {
    hide Byte, Unpadded, PadLength;
    UnpaddedParts(data, blockSize);
    var padLen := data[|data| - 1] as nat;
    var body := Unpadded(data, blockSize).value;
    PadLengthOfBody(body, |data|, blockSize, padLen);
    ByteValue(padLen);
    SameByte(data[|data| - 1], Byte(padLen));
    TailRepeats(data, body, data[|data| - 1], padLen);
  }

  lemma UnpaddedParts(data: Bytes, blockSize: nat)
    requires blockSize > 0 && Unpadded(data, blockSize).Ok?
    ensures data != [] && |data| % blockSize == 0
    ensures var b := data[|data| - 1];
      && 0 < b as nat <= blockSize && b as nat <= |data|
      && Unpadded(data, blockSize).value == data[..|data| - b as nat]
      && forall i :: |data| - b as nat <= i < |data| ==> data[i] == b
  {
    var b := data[|data| - 1];
    forall i | |data| - b as nat <= i < |data| ensures data[i] == b {
      SameByte(data[i], b);
    }
  }

  lemma PadLengthOfBody(body: Bytes, length: nat, blockSize: nat, padLen: nat)
    requires 0 < padLen <= blockSize && padLen <= length && length % blockSize == 0 && |body| == length - padLen
    ensures PadLength(body, blockSize) == padLen
  {
    BodyRemainder(length, blockSize, padLen);
  }

  lemma TailRepeats(data: Bytes, body: Bytes, b: bv8, count: nat)
    requires |data| == |body| + count && body == data[..|body|]
    requires forall i :: |body| <= i < |data| ==> data[i] == b
    ensures body + Repeat(b, count) == data
  {
    var out := body + Repeat(b, count);
    forall i | 0 <= i < |data| ensures out[i] == data[i] {}
  }

  lemma SameByte(a: bv8, b: bv8)
    requires a as nat == b as nat
    ensures a == b
  {
    BackAndForth(a);
    BackAndForth(b);
  }
}
