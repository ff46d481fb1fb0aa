/** UTF-16 (section 2 of RFC 2781), as strings of the engine hold it. */
module Utf16 {
  import opened Utf8

  type Unit = u: int | 0 <= u < 0x10000
  type Units = seq<Unit>

  predicate IsHigh(u: Unit) { 0xD800 <= u <= 0xDBFF }
  predicate IsLow(u: Unit) { 0xDC00 <= u <= 0xDFFF }

  predicate StartsWithPair(s: Units) {
    |s| > 1 && IsHigh(s[0]) && IsLow(s[1])
  }

  function Paired(high: Unit, low: Unit): Rune
    requires IsHigh(high) && IsLow(low)
  {
    0x10000 + (high - 0xD800) * 0x400 + (low - 0xDC00)
  }

  function HeadWidth(s: Units): nat
    requires s != []
  {
    if StartsWithPair(s) then 2 else 1
  }

  function Head(s: Units): Rune
    requires s != []
  {
    if StartsWithPair(s) then Paired(s[0], s[1])
    else if IsHigh(s[0]) || IsLow(s[0]) then RuneError
    else s[0]
  }

  /** Conversion to scalar values: a surrogate without its partner becomes U+FFFD. */
  function Scalars(s: Units): Text {
    if s == [] then [] else [Head(s)] + Scalars(s[HeadWidth(s)..])
  }

  function UnitsOf(r: Rune): Units {
    if r < 0x10000 then [r]
    else [0xD800 + (r - 0x10000) / 0x400, 0xDC00 + (r - 0x10000) % 0x400]
  }

  function AllUnits(t: Text): Units {
    if t == [] then [] else UnitsOf(t[0]) + AllUnits(t[1..])
  }

  /** The example of section 2.2 of RFC 2781. */
  lemma EncodingExample()
    ensures UnitsOf(0x12345) == [0xD808, 0xDF45] && Scalars([0xD808, 0xDF45, 0x3D]) == [0x12345, 0x3D]
  {
    assert [0xD808, 0xDF45, 0x3D][2..] == [0x3D] && [0x3D][1..] == [];
    assert Scalars([0x3D]) == [0x3D];
  }

  predicate LoneAt(s: Units, i: nat)
    requires i < |s|
  {
    || (IsHigh(s[i]) && !(i + 1 < |s| && IsLow(s[i + 1])))
    || (IsLow(s[i]) && !(i > 0 && IsHigh(s[i - 1])))
  }

  lemma PairSplits(high: Unit, low: Unit)
    requires IsHigh(high) && IsLow(low)
    ensures UnitsOf(Paired(high, low)) == [high, low]
  {
    var x := (high - 0xD800) * 0x400 + (low - 0xDC00);
    assert x / 0x400 == high - 0xD800 && x % 0x400 == low - 0xDC00;
  }

  /** Back to units, every lone surrogate has become U+FFFD and nothing else has changed. */
  lemma {:induction false} ScalarsAndBack(s: Units, i: nat)
    requires i < |s|
    ensures |AllUnits(Scalars(s))| == |s|
    ensures AllUnits(Scalars(s))[i] == if LoneAt(s, i) then RuneError else s[i]
  {
    hide Head, HeadWidth, LoneAt, UnitsOf;
    var n := HeadWidth(s);
    HeadBack(s, i);
    if n < |s| {
      var k := if i < n then 0 else i - n;
      ScalarsAndBack(s[n..], k);
      LoneInTail(s, i);
    }
    assert Scalars(s)[1..] == Scalars(s[n..]);
  }

  lemma HeadBack(s: Units, i: nat)
    requires i < |s|
    ensures |UnitsOf(Head(s))| == HeadWidth(s) <= |s| && HeadWidth(s) > 0
    ensures i < HeadWidth(s) ==> UnitsOf(Head(s))[i] == if LoneAt(s, i) then RuneError else s[i]
  {
    if StartsWithPair(s) {
      PairSplits(s[0], s[1]);
    }
  }

  lemma LoneInTail(s: Units, i: nat)
    requires i < |s|
    ensures HeadWidth(s) <= i ==> (LoneAt(s, i) <==> LoneAt(s[HeadWidth(s)..], i - HeadWidth(s)))
  {
  }

  /** Strings may be converted piece by piece if no pair straddles the cut. */
  lemma {:induction false} ScalarsOfConcat(a: Units, b: Units)
    requires !(a != [] && b != [] && IsHigh(a[|a| - 1]) && IsLow(b[0]))
    ensures Scalars(a + b) == Scalars(a) + Scalars(b)
  {
    hide Head, HeadWidth, IsHigh, IsLow;
    if a == [] {
      assert a + b == b;
    } else {
      SameHead(a, b);
      var n := HeadWidth(a);
      ScalarsOfConcat(a[n..], b);
      assert (a + b)[n..] == a[n..] + b;
    }
  }

  lemma SameHead(a: Units, b: Units)
    requires a != []
    requires b != [] ==> !(IsHigh(a[|a| - 1]) && IsLow(b[0]))
    ensures Head(a + b) == Head(a) && HeadWidth(a + b) == HeadWidth(a) <= |a|
    ensures HeadWidth(a) > 0
  {
    assert (a + b)[0] == a[0];
    assert |a| > 1 ==> (a + b)[1] == a[1];
    assert |a| == 1 && b != [] ==> (a + b)[1] == b[0];
  }
}

/** streams/text_streams.js: TextEncoderStream, TextDecoderStream and TextEncoder.encodeInto. */
module TextStreams {
  import opened Utf8
  import opened Utf16
  import opened TextDecoder

  /** encodeUTF8 of text.go on an engine string. */
  function EncodeString(s: Units): Bytes { EncodeAll(Scalars(s)) }

  // ---------------------------------------------------------------------------------
  // TextEncoderStream
  // ---------------------------------------------------------------------------------

  /** Splits off a high surrogate at the end of s: its partner may come in the next chunk. */
  function HoldBack(s: Units): (Units, Units) {
    if s != [] && IsHigh(s[|s| - 1]) then (s[..|s| - 1], s[|s| - 1..]) else (s, [])
  }

  function EncodeChunk(enqueued: seq<Bytes>, pending: Units, chunk: Units): (seq<Bytes>, Units) {
    var (text, held) := HoldBack(pending + chunk);
    (if text != [] then enqueued + [EncodeString(text)] else enqueued, held)
  }

  function EncodeFlush(enqueued: seq<Bytes>, pending: Units): seq<Bytes> {
    if pending != [] then enqueued + [EncodeString(pending)] else enqueued
  }

  /** What was enqueued encodes what was written, up to a high surrogate still held back. */
  ghost predicate Tracked(written: Units, pending: Units, enqueued: seq<Bytes>) {
    && |pending| <= 1 && |pending| <= |written|
    && pending == written[|written| - |pending|..]
    && (pending != [] ==> IsHigh(pending[0]))
    && (pending == [] && written != [] ==> !IsHigh(written[|written| - 1]))
    && Concat(enqueued) == EncodeString(written[..|written| - |pending|])
  }

  lemma {:induction false} ConcatAppend(chunks: seq<Bytes>, b: Bytes)
    ensures Concat(chunks + [b]) == Concat(chunks) + b
  {
    if chunks == [] {
      assert Concat([b]) == b + Concat([]) == b;
    } else {
      ConcatAppend(chunks[1..], b);
      assert (chunks + [b])[1..] == chunks[1..] + [b];
    }
  }

  lemma EncodePiece(seen: Units, text: Units, enqueued: seq<Bytes>)
    requires Concat(enqueued) == EncodeString(seen)
    requires !(seen != [] && text != [] && IsHigh(seen[|seen| - 1]) && IsLow(text[0]))
    ensures Concat(enqueued + [EncodeString(text)]) == EncodeString(seen + text)
  {
    ConcatAppend(enqueued, EncodeString(text));
    ScalarsOfConcat(seen, text);
    EncodeAllAppend(Scalars(seen), Scalars(text));
  }

  lemma EncodeChunkTracks(written: Units, pending: Units, enqueued: seq<Bytes>, chunk: Units)
    requires Tracked(written, pending, enqueued)
    ensures var (enqueued', pending') := EncodeChunk(enqueued, pending, chunk);
            Tracked(written + chunk, pending', enqueued')
  {
    hide EncodeString, Concat, IsHigh, IsLow;
    var seen := written[..|written| - |pending|];
    var (text, held) := HoldBack(pending + chunk);
    HeldBack(pending + chunk);
    assert written == seen + pending;
    Regroup(seen, pending, chunk, text, held);
    HighIsNotLow();
    if text != [] {
      EncodePiece(seen, text, enqueued);
    }
    assert pending + chunk == [] ==> written + chunk == written;
    assert pending + chunk != [] ==> (written + chunk)[|written + chunk| - 1] == (pending + chunk)[|pending + chunk| - 1];
  }

  lemma HighIsNotLow()
    ensures forall u: Unit :: IsHigh(u) ==> !IsLow(u)
  {
  }

  lemma HeldBack(s: Units)
    ensures var (text, held) := HoldBack(s);
            s == text + held && |held| <= 1
            && (held != [] ==> IsHigh(held[0])) && (held == [] && s != [] ==> !IsHigh(s[|s| - 1]))
  {
  }

  lemma Regroup(seen: Units, pending: Units, chunk: Units, text: Units, held: Units)
    requires pending + chunk == text + held
    ensures var all := seen + pending + chunk;
            all[..|all| - |held|] == seen + text && all[|all| - |held|..] == held
    ensures pending != [] && text != [] ==> text[0] == pending[0]
    ensures text == [] ==> seen + text == seen
  {
    assert seen + pending + chunk == seen + (pending + chunk) == seen + text + held;
    if pending != [] && text != [] {
      assert (pending + chunk)[0] == (text + held)[0];
    }
  }

  lemma EncodeFlushCompletes(written: Units, pending: Units, enqueued: seq<Bytes>)
    requires Tracked(written, pending, enqueued)
    ensures Concat(EncodeFlush(enqueued, pending)) == EncodeString(written)
  {
    var seen := written[..|written| - |pending|];
    assert written == seen + pending;
    if pending != [] {
      EncodePiece(seen, pending, enqueued);
    } else {
      assert seen == written;
    }
  }

  class EncoderStream {
    var pendingHighSurrogate: Units
    var enqueued: seq<Bytes>
    ghost var written: Units

    ghost predicate Valid()
      reads this
    {
      Tracked(written, pendingHighSurrogate, enqueued)
    }

    constructor ()
      ensures Valid() && written == [] && enqueued == []
    {
      pendingHighSurrogate, enqueued, written := [], [], [];
    }

    method Transform(chunk: Units)
      requires Valid()
      modifies this
      ensures Valid() && written == old(written) + chunk
      ensures (enqueued, pendingHighSurrogate) == EncodeChunk(old(enqueued), old(pendingHighSurrogate), chunk)
    {
      hide Tracked, EncodeString;
      EncodeChunkTracks(written, pendingHighSurrogate, enqueued, chunk);
      var text := pendingHighSurrogate + chunk;
      pendingHighSurrogate := [];
      if |text| > 0 {
        var last := text[|text| - 1];
        if IsHigh(last) {
          pendingHighSurrogate := text[|text| - 1..];
          text := text[..|text| - 1];
        }
      }
      if text != [] {
        enqueued := enqueued + [EncodeString(text)];
      }
      written := written + chunk;
    }

    /** At the end everything written has been encoded, a lone high surrogate as U+FFFD. */
    method Flush()
      requires Valid()
      modifies this
      ensures Concat(enqueued) == EncodeString(old(written))
      ensures enqueued == EncodeFlush(old(enqueued), old(pendingHighSurrogate))
      ensures pendingHighSurrogate == []
    {
      EncodeFlushCompletes(written, pendingHighSurrogate, enqueued);
      if pendingHighSurrogate != [] {
        enqueued := enqueued + [EncodeString(pendingHighSurrogate)];
        pendingHighSurrogate := [];
      }
    }
  }

  // ---------------------------------------------------------------------------------
  // TextDecoderStream
  // ---------------------------------------------------------------------------------

  function Joined(texts: seq<Text>): Text {
    if texts == [] then [] else texts[0] + Joined(texts[1..])
  }

  lemma {:induction false} JoinedAppend(texts: seq<Text>, t: Text)
    ensures Joined(texts + [t]) == Joined(texts) + t
  {
    if texts == [] {
      assert Joined([t]) == t + Joined([]) == t;
    } else {
      JoinedAppend(texts[1..], t);
      assert (texts + [t])[1..] == texts[1..] + [t];
    }
  }

  class DecoderStream {
    const decoder: Decoder
    var enqueued: seq<Text>

    constructor (cfg: Config)
      ensures fresh(decoder) && decoder.cfg == cfg && decoder.Now() == Initial && enqueued == []
    {
      decoder := new Decoder(cfg);
      enqueued := [];
    }

    /** transform(chunk): the outcome is that of one streaming step, and its text is enqueued. */
    method Transform(chunk: Bytes) returns (threw: bool)
      modifies this, decoder
      ensures var o := Step(decoder.cfg, old(decoder.Now()), chunk, false);
              threw == o.Thrown?
              && decoder.Now() == (if threw then old(decoder.Now()) else o.next)
              && Joined(enqueued) == old(Joined(enqueued)) + (if threw then [] else o.text)
    {
      var o := decoder.Decode(chunk, true);
      if o.Thrown? {
        return true;
      }
      if o.text != [] {
        JoinedAppend(enqueued, o.text);
        enqueued := enqueued + [o.text];
      }
      return false;
    }

    method Flush() returns (threw: bool)
      modifies this, decoder
      ensures var o := Step(decoder.cfg, old(decoder.Now()), [], true);
              threw == o.Thrown?
              && Joined(enqueued) == old(Joined(enqueued)) + (if threw then [] else o.text)
    {
      var o := decoder.Decode([], false);
      if o.Thrown? {
        return true;
      }
      if o.text != [] {
        JoinedAppend(enqueued, o.text);
        enqueued := enqueued + [o.text];
      }
      return false;
    }
  }

  // ---------------------------------------------------------------------------------
  // The two streams back to back
  // ---------------------------------------------------------------------------------

  function AllWritten(chunks: seq<Units>): Units {
    if chunks == [] then [] else chunks[0] + AllWritten(chunks[1..])
  }

  /** Everything TextEncoderStream enqueues for the chunks and the flush after them. */
  function EncodeRun(enqueued: seq<Bytes>, pending: Units, chunks: seq<Units>): seq<Bytes>
    decreases |chunks|
  {
    if chunks == [] then EncodeFlush(enqueued, pending)
    else
      var (enqueued', pending') := EncodeChunk(enqueued, pending, chunks[0]);
      EncodeRun(enqueued', pending', chunks[1..])
  }

  lemma {:induction false} EncodeRunFrom(written: Units, pending: Units, enqueued: seq<Bytes>, chunks: seq<Units>)
    requires Tracked(written, pending, enqueued)
    ensures Concat(EncodeRun(enqueued, pending, chunks)) == EncodeString(written + AllWritten(chunks))
    decreases |chunks|
  {
    hide Tracked, EncodeChunk, EncodeFlush, EncodeString;
    if chunks == [] {
      assert written + AllWritten(chunks) == written;
      EncodeFlushCompletes(written, pending, enqueued);
    } else {
      EncodeChunkTracks(written, pending, enqueued, chunks[0]);
      var (enqueued', pending') := EncodeChunk(enqueued, pending, chunks[0]);
      EncodeRunFrom(written + chunks[0], pending', enqueued', chunks[1..]);
      assert written + AllWritten(chunks) == (written + chunks[0]) + AllWritten(chunks[1..]);
    }
  }

  /** Encoding a string in any chunks and decoding the bytes in any other chunks, with ignoreBOM,
      gives back its scalar values, in fatal mode as well. */
  lemma PipelineRestores(chunks: seq<Units>, rechunked: seq<Bytes>, fatal: bool)
    requires Concat(rechunked) == Concat(EncodeRun([], [], chunks))
    ensures Run(Config(fatal, true), Initial, rechunked, []) == TextDecoder.Text(Scalars(AllWritten(chunks)))
  {
    EncodeRunFrom([], [], [], chunks);
    assert [] + AllWritten(chunks) == AllWritten(chunks);
    StreamingIsOneShot(Config(fatal, true), rechunked, []);
    assert Concat(rechunked) + [] == Concat(rechunked);
    DecodesItsEncoding(Scalars(AllWritten(chunks)), fatal);
  }

  /** As strings: each lone surrogate has become U+FFFD, every other unit is where it was, and in
      particular no pair is broken. */
  lemma PipelineKeepsUnits(chunks: seq<Units>, rechunked: seq<Bytes>, fatal: bool, i: nat)
    requires Concat(rechunked) == Concat(EncodeRun([], [], chunks))
    requires i < |AllWritten(chunks)|
    ensures var s := AllWritten(chunks);
            var r := Run(Config(fatal, true), Initial, rechunked, []);
            r.Text? && |AllUnits(r.text)| == |s|
            && AllUnits(r.text)[i] == if LoneAt(s, i) then RuneError else s[i]
  {
    PipelineRestores(chunks, rechunked, fatal);
    ScalarsAndBack(AllWritten(chunks), i);
  }

  // ---------------------------------------------------------------------------------
  // TextEncoder.encodeInto
  // ---------------------------------------------------------------------------------

  /** The units the loop takes at once. */
  function Width(s: Units, read: nat): nat
    requires read < |s|
  {
    HeadWidth(s[read..])
  }

  lemma TakeOne(s: Units, read: nat)
    requires read < |s|
    requires read > 0 && IsHigh(s[read - 1]) ==> !IsLow(s[read])
    ensures var w := Width(s, read);
            read + w <= |s|
            && EncodeString(s[..read + w]) == EncodeString(s[..read]) + EncodeString(s[read..read + w])
            && (read + w < |s| && IsHigh(s[read + w - 1]) ==> !IsLow(s[read + w]))
  {
    var w := Width(s, read);
    assert s[..read + w] == s[..read] + s[read..read + w];
    ScalarsOfConcat(s[..read], s[read..read + w]);
    EncodeAllAppend(Scalars(s[..read]), Scalars(s[read..read + w]));
  }

  lemma NothingEncodesToNothing()
    ensures EncodeString([]) == []
  {
  }

  /** Uint8Array.prototype.set. */
  method Set(destination: array<byte>, bytes: Bytes, offset: nat)
    requires offset + |bytes| <= destination.Length
    modifies destination
    ensures destination[..] == old(destination[..])[..offset] + bytes + old(destination[..])[offset + |bytes|..]
  {
    forall k | 0 <= k < |bytes| {
      destination[offset + k] := bytes[k];
    }
  }

  /** Writes as many whole characters as fit, and nothing beyond them. */
  method EncodeInto(source: Units, destination: array<byte>) returns (read: nat, written: nat)
    modifies destination
    ensures read <= |source| && written <= destination.Length
    ensures destination[..written] == EncodeString(source[..read])
    ensures destination[written..] == old(destination[..])[written..]
    ensures 0 < read < |source| ==> !(IsHigh(source[read - 1]) && IsLow(source[read]))
    ensures read < |source| ==>
              written + |EncodeString(source[read..read + Width(source, read)])| > destination.Length
  {
    hide EncodeString;
    NothingEncodesToNothing();
    read, written := 0, 0;
    while read < |source|
      invariant read <= |source| && written <= destination.Length
      invariant destination[..written] == EncodeString(source[..read])
      invariant destination[written..] == old(destination[..])[written..]
      invariant 0 < read < |source| && IsHigh(source[read - 1]) ==> !IsLow(source[read])
    {
      var first := source[read];
      var width := if IsHigh(first) && read + 1 < |source| && IsLow(source[read + 1]) then 2 else 1;
      assert width == Width(source, read);
      TakeOne(source, read);
      var bytes := EncodeString(source[read..read + width]);
      if written + |bytes| > destination.Length {
        break;
      }
      ghost var before := destination[..];
      Set(destination, bytes, written);
      assert destination[..written + |bytes|] == before[..written] + bytes;
      assert destination[written + |bytes|..] == before[written..][|bytes|..];
      read := read + width;
      written := written + |bytes|;
    }
  }
}
