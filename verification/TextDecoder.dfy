/** streams/text.go and streams/text_streams.js: the UTF-8 TextDecoder, which carries undecoded bytes
    and the byte-order-mark state from one chunk to the next. */
module TextDecoder {
  import opened Utf8

  datatype Chunk = Decoded(text: Text, rest: Bytes) | Malformed

  function Prepend(t: Text, c: Chunk): Chunk {
    if c.Malformed? then Malformed else Decoded(t + c.text, c.rest)
  }

  /** What decodeUTF8Chunk makes of data. A truncated sequence at the end is left over, or counts
      as one U+FFFD together with everything after its first byte when nothing more will come. */
  function ChunkOf(data: Bytes, final: bool, fatal: bool): Chunk {
    if data == [] then Decoded([], [])
    else
      var n := Announced(data[0]);
      if n == 0 then
        if fatal then Malformed else Prepend([RuneError], ChunkOf(data[1..], final, fatal))
      else if n > |data| then
        if !final then Decoded([], data)
        else if fatal then Malformed
        else Decoded([RuneError], [])
      else if !WellFormed(data[..n]) then
        if fatal then Malformed else Prepend([RuneError], ChunkOf(data[1..], final, fatal))
      else Prepend([Decode(data[..n])], ChunkOf(data[n..], final, fatal))
  }

  lemma PrependAssoc(s: Text, t: Text, c: Chunk)
    ensures Prepend(s, Prepend(t, c)) == Prepend(s + t, c)
    ensures Prepend([], c) == c
  {
    if c.Decoded? {
      assert s + (t + c.text) == (s + t) + c.text;
      assert [] + c.text == c.text;
    }
  }

  /** decodeUTF8Chunk. */
  method DecodeChunk(data: Bytes, final: bool, fatal: bool) returns (c: Chunk)
    ensures c == ChunkOf(data, final, fatal)
    ensures exists parts: seq<Bytes>, text: Text, rest: Bytes ::
      && Segmented(data, parts, text, rest, final, CutOff)
      && c == if fatal && !AllWellFormed(parts) then Malformed else Decoded(text, rest)
  {
    hide ChunkOf, Segmented, AllWellFormed;
    ghost var parts := ChunkReadsItsData(data, final);
    c := DecodeFrom(data, final, fatal);
    NotMalformed(data, final);
  }

  lemma NotMalformed(data: Bytes, final: bool)
    ensures ChunkOf(data, final, false).Decoded?
  {
    var parts := ChunkReadsItsData(data, final);
  }

  /** Its loop over the offset. */
  method DecodeFrom(data: Bytes, final: bool, fatal: bool) returns (c: Chunk)
    ensures c == ChunkOf(data, final, fatal)
  {
    hide WellFormed, Announced, Decode;
    var out: Text := [];
    var offset := 0;
    PrependAssoc([], [], ChunkOf(data, final, fatal));
    assert data[0..] == data;
    while offset < |data|
      invariant 0 <= offset <= |data|
      invariant ChunkOf(data, final, fatal) == Prepend(out, ChunkOf(data[offset..], final, fatal))
    {
      ghost var here := data[offset..];
      var sequenceLength := Announced(data[offset]);
      if sequenceLength == 0 {
        if fatal {
          return Malformed;
        }
        PrependAssoc(out, [RuneError], ChunkOf(here[1..], final, fatal));
        assert here[1..] == data[offset + 1..];
        out := out + [RuneError];
        offset := offset + 1;
        continue;
      }
      if offset + sequenceLength > |data| {
        if !final {
          return Decoded(out, data[offset..]);
        }
        if fatal {
          return Malformed;
        }
        return Decoded(out + [RuneError], []);
      }
      var sequence := data[offset..offset + sequenceLength];
      assert sequence == here[..sequenceLength];
      if !WellFormed(sequence) {
        if fatal {
          return Malformed;
        }
        PrependAssoc(out, [RuneError], ChunkOf(here[1..], final, fatal));
        assert here[1..] == data[offset + 1..];
        out := out + [RuneError];
        offset := offset + 1;
        continue;
      }
      PrependAssoc(out, [Decode(sequence)], ChunkOf(here[sequenceLength..], final, fatal));
      assert here[sequenceLength..] == data[offset + sequenceLength..];
      out := out + [Decode(sequence)];
      offset := offset + sequenceLength;
    }
    return Decoded(out, []);
  }

  // ---------------------------------------------------------------------------------
  // What a chunk boundary does not change
  // ---------------------------------------------------------------------------------

  /** Decoding x with more to come, then what it left over followed by y, is decoding x + y. */
  lemma {:induction false} DecodeInTwo(x: Bytes, y: Bytes, final: bool, fatal: bool)
    ensures var c := ChunkOf(x, false, fatal);
            ChunkOf(x + y, final, fatal) ==
              if c.Malformed? then Malformed else Prepend(c.text, ChunkOf(c.rest + y, final, fatal))
    decreases |x|
  {
    if x == [] {
      assert x + y == y && [] + y == y;
      PrependAssoc([], [], ChunkOf(y, final, fatal));
    } else {
      var n := Announced(x[0]);
      var c := ChunkOf(x, false, fatal);
      if n > |x| {
        PrependAssoc([], [], ChunkOf(x + y, final, fatal));
      } else {
        var step := if n == 0 || !WellFormed(x[..n]) then 1 else n;
        assert n > 0 ==> (x + y)[..n] == x[..n];
        assert (x + y)[step..] == x[step..] + y;
        DecodeInTwo(x[step..], y, final, fatal);
        var c1 := ChunkOf(x[step..], false, fatal);
        if c1.Decoded? {
          var rune := if n == 0 || !WellFormed(x[..n]) then RuneError else Decode(x[..n]);
          PrependAssoc([rune], c1.text, ChunkOf(c1.rest + y, final, fatal));
        }
      }
    }
  }

  /** What is left over is the start of one sequence: at most three bytes. */
  lemma {:induction false} LeftoverIsShort(x: Bytes, final: bool, fatal: bool)
    ensures var c := ChunkOf(x, final, fatal);
            c.Decoded? ==> |c.rest| <= 3 && (final ==> c.rest == [])
                           && (!final ==> ChunkOf(c.rest, false, fatal) == Decoded([], c.rest))
    decreases |x|
  {
    if x != [] {
      var n := Announced(x[0]);
      if n <= |x| {
        LeftoverIsShort(x[if n == 0 || !WellFormed(x[..n]) then 1 else n..], final, fatal);
      }
    }
  }

  // ---------------------------------------------------------------------------------
  // Against UTF-8 itself
  // ---------------------------------------------------------------------------------

  lemma {:induction false} DecodesItsEncoding(t: Text, fatal: bool)
    ensures ChunkOf(EncodeAll(t), true, fatal) == Decoded(t, [])
  {
    if t != [] {
      EncodeDecodes(t[0]);
      var s := Encode(t[0]);
      assert EncodeAll(t)[..|s|] == s && EncodeAll(t)[|s|..] == EncodeAll(t[1..]);
      DecodesItsEncoding(t[1..], fatal);
      assert [t[0]] + t[1..] == t;
    }
  }

  lemma {:induction false} FatalDecodesOnlyEncodings(x: Bytes)
    requires ChunkOf(x, true, true).Decoded?
    ensures EncodeAll(ChunkOf(x, true, true).text) == x
    decreases |x|
  {
    hide Encode, Decode;
    if x != [] {
      var n := Announced(x[0]);
      FirstRune(x);
      FatalDecodesOnlyEncodings(x[n..]);
      DecodeEncodes(x[..n]);
      var t := ChunkOf(x, true, true).text;
      assert t[0] == Decode(x[..n]) && t[1..] == ChunkOf(x[n..], true, true).text;
      assert x == x[..n] + x[n..];
    }
  }

  lemma FirstRune(x: Bytes)
    requires x != [] && ChunkOf(x, true, true).Decoded?
    ensures var n := Announced(x[0]);
            0 < n <= |x| && WellFormed(x[..n]) && ChunkOf(x[n..], true, true).Decoded?
            && ChunkOf(x, true, true).text == [Decode(x[..n])] + ChunkOf(x[n..], true, true).text
  {
  }

  /** In fatal mode the input is accepted exactly when it is the encoding of some text, and then the
      result is that text. */
  lemma FatalAcceptsExactlyUtf8(x: Bytes, t: Text)
    ensures ChunkOf(x, true, true) == Decoded(t, []) <==> EncodeAll(t) == x
  {
    if EncodeAll(t) == x {
      DecodesItsEncoding(t, true);
    } else if ChunkOf(x, true, true) == Decoded(t, []) {
      FatalDecodesOnlyEncodings(x);
    }
  }

  // ---------------------------------------------------------------------------------
  // What any input decodes to
  // ---------------------------------------------------------------------------------

  /** Fewer bytes are left than the first one announces. */
  predicate CutOff(data: Bytes) { data != [] && |data| < Announced(data[0]) }

  lemma BadByte(data: Bytes)
    requires data != [] && !CutOff(data)
    requires var n := Announced(data[0]); n == 0 || !WellFormed(data[..n])
    ensures NothingStarts(data, CutOff) && Reads(data[..1], RuneError, data, true, CutOff) && Reads(data[..1], RuneError, data, false, CutOff)
  {
    forall n | 0 <= n <= |data| ensures !WellFormed(data[..n]) {
      PrefixIsAnnounced(data, n);
    }
    assert data[..1] <= data;
  }

  /** Decoding without fatal succeeds, and reads the data piece by piece: every well-formed sequence as its
      rune, every byte at which none starts as U+FFFD, and a sequence cut off at the end of all as one
      U+FFFD. With fatal it gives the same if every piece is well-formed, and else fails. */
  lemma {:induction false} ChunkReadsItsData(data: Bytes, final: bool) returns (parts: seq<Bytes>)
    ensures var c := ChunkOf(data, final, false);
      && c.Decoded? && Segmented(data, parts, c.text, c.rest, final, CutOff)
      && ChunkOf(data, final, true) == (if AllWellFormed(parts) then c else Malformed)
    decreases |data|
  {
    if data == [] {
      parts := [];
    } else if CutOff(data) {
      parts := if final then [data] else [];
    } else {
      var n := Announced(data[0]);
      var bad := n == 0 || !WellFormed(data[..n]);
      if bad { BadByte(data); }
      var step := if bad then 1 else n;
      var more := ChunkReadsItsData(data[step..], final);
      parts := [data[..step]] + more;
      assert parts[1..] == more;
      PartsWellFormed(data[..step], more, bad);
      var c := ChunkOf(data[step..], final, false);
      var r: Rune := if bad then RuneError else Decode(data[..n]);
      assert ([r] + c.text)[1..] == c.text;
    }
  }

  lemma PartsWellFormed(part: Bytes, more: seq<Bytes>, bad: bool)
    requires bad == !WellFormed(part)
    ensures AllWellFormed([part] + more) <==> !bad && AllWellFormed(more)
  {
    var all := [part] + more;
    assert all[0] == part;
    forall i | 0 <= i < |more| ensures all[i + 1] == more[i] {}
  }

  /** And no other text can be read that way. */
  lemma {:induction false} NoOtherReading(data: Bytes, parts: seq<Bytes>, text: Text, rest: Bytes, final: bool)
    requires Segmented(data, parts, text, rest, final, CutOff)
    ensures ChunkOf(data, final, false) == Decoded(text, rest)
    decreases |parts|
  {
    if parts != [] {
      NoOtherReading(data[|parts[0]|..], parts[1..], text[1..], rest, final);
      assert text == [text[0]] + text[1..];
      assert data[..|parts[0]|] == parts[0];
      assert NothingStarts(data, CutOff) && Announced(data[0]) > 0 ==> !WellFormed(data[..Announced(data[0])]);
    }
  }

  // ---------------------------------------------------------------------------------
  // The byte order mark
  // ---------------------------------------------------------------------------------

  const BOM: Bytes := [0xEF, 0xBB, 0xBF]

  function WithoutBOM(x: Bytes, strip: bool): Bytes {
    if strip && BOM <= x then x[3..] else x
  }

  predicate IsBOMPrefix(data: Bytes) {
    match |data|
    case 1 => data[0] == 0xEF
    case 2 => data[0] == 0xEF && data[1] == 0xBB
    case _ => false
  }

  /** stripUTF8BOM: the data, and whether it must wait for more to tell whether a mark begins it. */
  function StripBOM(data: Bytes, final: bool): (Bytes, bool) {
    if |data| >= 3 && data[0] == 0xEF && data[1] == 0xBB && data[2] == 0xBF then (data[3..], false)
    else if !final && IsBOMPrefix(data) then (data, true)
    else (data, false)
  }

  // ---------------------------------------------------------------------------------
  // One decode call
  // ---------------------------------------------------------------------------------

  datatype Config = Config(fatal: bool, ignoreBOM: bool)

  /** pending and firstChunk of TextDecoder and TextDecoderStream. */
  datatype State = State(pending: Bytes, first: bool)
  datatype Outcome = Produced(text: Text, next: State) | Thrown

  const Initial := State([], true)

  function Step(cfg: Config, st: State, chunk: Bytes, final: bool): Outcome {
    var hadBytes := |st.pending| != 0 || |chunk| != 0;
    var data := st.pending + chunk;
    var (body, bomPending) := if st.first && !cfg.ignoreBOM then StripBOM(data, final) else (data, false);
    if bomPending then Produced([], State(body, true))
    else
      match ChunkOf(body, final, cfg.fatal)
      case Malformed => Thrown
      case Decoded(text, rest) => Produced(text, State(rest, st.first && !hadBytes))
  }

  class Decoder {
    const cfg: Config
    var pending: Bytes
    var firstChunk: bool

    constructor (cfg: Config)
      ensures this.cfg == cfg && pending == Initial.pending && firstChunk == Initial.first
    {
      this.cfg, pending, firstChunk := cfg, [], true;
    }

    function Now(): State
      reads this
    {
      State(pending, firstChunk)
    }

    /** decodeUTF8 of text.go. */
    method DecodeUTF8(chunk: Bytes, final: bool, stripBOM: bool) returns (c: Chunk, bomPending: bool)
      ensures var (body, wait) := if stripBOM then StripBOM(pending + chunk, final) else (pending + chunk, false);
              bomPending == wait && c == if wait then Decoded([], body) else ChunkOf(body, final, cfg.fatal)
    {
      var data := pending + chunk;
      bomPending := false;
      if stripBOM {
        var stripped := StripBOM(data, final);
        data, bomPending := stripped.0, stripped.1;
      }
      if bomPending {
        return Decoded([], data), true;
      }
      c := DecodeChunk(data, final, cfg.fatal);
    }

    /** decode(input, {stream}); a call that throws leaves the decoder as it was. */
    method Decode(chunk: Bytes, stream: bool) returns (res: Outcome)
      modifies this
      ensures res == (var o := Step(cfg, old(Now()), chunk, !stream);
                      if o.Thrown? then Thrown else Produced(o.text, Now()))
      ensures Now() == (var o := Step(cfg, old(Now()), chunk, !stream);
                        if o.Thrown? then old(Now()) else if stream then o.next else Initial)
    {
      var hadBytes := |pending| != 0 || |chunk| != 0;
      var decoded, bomPending := DecodeUTF8(chunk, !stream, firstChunk && !cfg.ignoreBOM);
      if decoded.Malformed? {
        return Thrown;
      }
      pending := decoded.rest;
      firstChunk := bomPending || (firstChunk && !hadBytes);
      if !stream {
        pending := [];
        firstChunk := true;
      }
      return Produced(decoded.text, Now());
    }
  }

  // ---------------------------------------------------------------------------------
  // Whole runs
  // ---------------------------------------------------------------------------------

  datatype Result = Text(text: Text) | Error

  function Concat(chunks: seq<Bytes>): Bytes {
    if chunks == [] then [] else chunks[0] + Concat(chunks[1..])
  }

  /** Streaming calls for all the chunks, then a final call with `last` (empty for a plain flush);
      the texts are concatenated, and the run ends with the first call that throws. */
  function Run(cfg: Config, st: State, chunks: seq<Bytes>, last: Bytes): Result
    decreases |chunks|
  {
    if chunks == [] then
      match Step(cfg, st, last, true)
      case Thrown => Error
      case Produced(text, _) => Text(text)
    else
      match Step(cfg, st, chunks[0], false)
      case Thrown => Error
      case Produced(text, next) =>
        match Run(cfg, next, chunks[1..], last)
        case Error => Error
        case Text(more) => Text(text + more)
  }

  /** Decoding everything at once: the mark is dropped exactly when it starts the whole input and
      stripping is on. */
  function OneShot(cfg: Config, data: Bytes): Result {
    match ChunkOf(WithoutBOM(data, !cfg.ignoreBOM), true, cfg.fatal)
    case Malformed => Error
    case Decoded(text, _) => Text(text)
  }

  /** The decoder has seen x and produced t: either it still waits to see whether x begins with a
      mark, or what it holds back is what decoding x leaves over. */
  ghost predicate Tracks(cfg: Config, st: State, x: Bytes, t: Text) {
    if st.first then
      st.pending == x && t == [] && (x == [] || (!cfg.ignoreBOM && IsBOMPrefix(x)))
    else
      x != [] && ChunkOf(WithoutBOM(x, !cfg.ignoreBOM), false, cfg.fatal) == Decoded(t, st.pending)
      && (!cfg.ignoreBOM && !(BOM <= x) ==> !IsBOMPrefix(x))
  }

  lemma BOMDecided(x: Bytes, y: Bytes)
    requires x != [] && !IsBOMPrefix(x)
    ensures BOM <= x + y <==> BOM <= x
    ensures BOM <= x ==> (x + y)[3..] == x[3..] + y
  {
    if BOM <= x + y {
      assert (x + y)[..3] == BOM;
      assert x[0] == (x + y)[0];
      assert |x| > 1 ==> x[1] == (x + y)[1];
      assert |x| > 2 ==> x[2] == (x + y)[2];
    }
  }

  lemma StripBOMIsWithoutBOM(x: Bytes, final: bool)
    ensures StripBOM(x, final) == if !final && IsBOMPrefix(x) then (x, true) else (WithoutBOM(x, true), false)
  {
  }

  /** One call adds the chunk to what was seen and its text to what was produced; it throws exactly
      when decoding what was seen fails. */
  lemma {:induction false} StepTracks(cfg: Config, st: State, x: Bytes, t: Text, chunk: Bytes, final: bool)
    requires Tracks(cfg, st, x, t)
    ensures match Step(cfg, st, chunk, final)
            case Produced(text, next) =>
              if final then ChunkOf(WithoutBOM(x + chunk, !cfg.ignoreBOM), true, cfg.fatal) == Decoded(t + text, [])
              else Tracks(cfg, next, x + chunk, t + text)
            case Thrown => ChunkOf(WithoutBOM(x + chunk, !cfg.ignoreBOM), final, cfg.fatal) == Malformed
  {
    var strip := !cfg.ignoreBOM;
    if st.first {
      StripBOMIsWithoutBOM(x + chunk, final);
      if strip && !final && IsBOMPrefix(x + chunk) {
      } else {
        LeftoverIsShort(WithoutBOM(x + chunk, strip), final, cfg.fatal);
      }
    } else {
      var body := WithoutBOM(x, strip);
      MarkIsSettled(cfg, x, chunk);
      assert WithoutBOM(x + chunk, strip) == body + chunk;
      DecodeInTwo(body, chunk, final, cfg.fatal);
      LeftoverIsShort(st.pending + chunk, final, cfg.fatal);
    }
  }

  lemma MarkIsSettled(cfg: Config, x: Bytes, chunk: Bytes)
    requires x != [] && (!cfg.ignoreBOM && !(BOM <= x) ==> !IsBOMPrefix(x))
    ensures WithoutBOM(x + chunk, !cfg.ignoreBOM) == WithoutBOM(x, !cfg.ignoreBOM) + chunk
    ensures !cfg.ignoreBOM && !(BOM <= x + chunk) ==> !IsBOMPrefix(x + chunk)
  {
    if !cfg.ignoreBOM {
      BOMDecided(x, chunk);
    }
  }

  lemma MalformedStays(cfg: Config, x: Bytes, rest: Bytes)
    requires ChunkOf(WithoutBOM(x, !cfg.ignoreBOM), false, cfg.fatal) == Malformed
    ensures OneShot(cfg, x + rest) == Error
  {
    assert x != [] by { assert ChunkOf([], false, cfg.fatal) == Decoded([], []); }
    assert IsBOMPrefix(x) ==> ChunkOf(x, false, cfg.fatal) == Decoded([], x);
    MarkIsSettled(cfg, x, rest);
    DecodeInTwo(WithoutBOM(x, !cfg.ignoreBOM), rest, true, cfg.fatal);
  }

  /** Every chunking gives the text of the whole input, or fails exactly when that does. */
  lemma {:induction false} StreamingIsOneShot(cfg: Config, chunks: seq<Bytes>, last: Bytes)
    ensures Run(cfg, Initial, chunks, last) == OneShot(cfg, Concat(chunks) + last)
  {
    RunFrom(cfg, Initial, [], [], chunks, last);
    assert [] + Concat(chunks) + last == Concat(chunks) + last;
    match Run(cfg, Initial, chunks, last)
    case Text(text) => assert [] + text == text;
    case Error =>
  }

  /** So for every chunking: the text of a run that is not fatal reads the whole input, without a byte order
      mark at its front unless that is to be kept, piece by piece. */
  lemma StreamingReadsItsInput(ignoreBOM: bool, chunks: seq<Bytes>, last: Bytes) returns (parts: seq<Bytes>, text: Text)
    ensures Run(Config(false, ignoreBOM), Initial, chunks, last) == Result.Text(text)
    ensures var all := Concat(chunks) + last;
      var body := if !ignoreBOM && |all| >= 3 && all[0] == 0xEF && all[1] == 0xBB && all[2] == 0xBF then all[3..] else all;
      Segmented(body, parts, text, [], true, CutOff)
  {
    StreamingIsOneShot(Config(false, ignoreBOM), chunks, last);
    var all := Concat(chunks) + last;
    var body := WithoutBOM(all, !ignoreBOM);
    assert BOM <= all <==> |all| >= 3 && all[0] == 0xEF && all[1] == 0xBB && all[2] == 0xBF;
    parts := ChunkReadsItsData(body, true);
    LeftoverIsShort(body, true, false);
    text := ChunkOf(body, true, false).text;
  }

  lemma {:induction false} RunFrom(cfg: Config, st: State, x: Bytes, t: Text, chunks: seq<Bytes>, last: Bytes)
    requires Tracks(cfg, st, x, t)
    ensures (match Run(cfg, st, chunks, last) case Error => Error case Text(text) => Text(t + text))
         == OneShot(cfg, x + Concat(chunks) + last)
    decreases |chunks|
  {
    hide Step, Tracks, StripBOM, WithoutBOM, ChunkOf;
    if chunks == [] {
      assert x + Concat(chunks) + last == x + last;
      StepTracks(cfg, st, x, t, last, true);
    } else {
      StepTracks(cfg, st, x, t, chunks[0], false);
      assert x + Concat(chunks) + last == (x + chunks[0]) + Concat(chunks[1..]) + last;
      match Step(cfg, st, chunks[0], false) {
        case Produced(text, next) =>
          RunFrom(cfg, next, x + chunks[0], t + text, chunks[1..], last);
          match Run(cfg, next, chunks[1..], last) {
            case Text(more) => assert t + (text + more) == (t + text) + more;
            case Error =>
          }
        case Thrown =>
          var rest := Concat(chunks[1..]) + last;
          assert x + Concat(chunks) + last == (x + chunks[0]) + rest;
          MalformedStays(cfg, x + chunks[0], rest);
      }
    }
  }

  /** The states after streaming calls that did not throw. */
  function After(cfg: Config, st: State, chunks: seq<Bytes>): Outcome
    decreases |chunks|
  {
    if chunks == [] then Produced([], st)
    else
      match Step(cfg, st, chunks[0], false)
      case Thrown => Thrown
      case Produced(_, next) => After(cfg, next, chunks[1..])
  }

  /** Never more than three bytes are held back. */
  lemma {:induction false} PendingIsShort(cfg: Config, st: State, x: Bytes, t: Text, chunks: seq<Bytes>)
    requires Tracks(cfg, st, x, t)
    ensures var o := After(cfg, st, chunks); o.Produced? ==> |o.next.pending| <= 3
    decreases |chunks|
  {
    if chunks == [] {
      LeftoverIsShort(WithoutBOM(x, !cfg.ignoreBOM), false, cfg.fatal);
    } else {
      StepTracks(cfg, st, x, t, chunks[0], false);
      match Step(cfg, st, chunks[0], false) {
        case Produced(text, next) => PendingIsShort(cfg, next, x + chunks[0], t + text, chunks[1..]);
        case Thrown =>
      }
    }
  }
}
