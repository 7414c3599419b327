/** Framing of control messages over a byte stream that arrives in arbitrary
    chunks (`ControlReader` and `ControlWriter` in `src/control_crypto.rs`). */
module ControlFraming {
  import opened Basics
  import opened Bytes
  import opened Utf8
  import opened ControlCodec

  const MAX_FRAME: nat := 1024 * 1024
  const LEN_PREFIX: nat := 4

  datatype ReadError = UnexpectedEof | LineTooLong | FrameTooLarge | Codec(error: CodecError)

  // ----- the buffered reader -----

  function Flatten(chunks: seq<Bin>): Bin {
    if chunks == [] then [] else chunks[0] + Flatten(chunks[1..])
  }

  predicate Chunked(chunks: seq<Bin>) {
    forall i :: 0 <= i < |chunks| ==> chunks[i] != []
  }

  /** The chunks left after `n` bytes of the first are consumed. */
  function Dropped(chunks: seq<Bin>, n: nat): seq<Bin>
    requires chunks != [] && n <= |chunks[0]|
  {
    if n == |chunks[0]| then chunks[1..] else [chunks[0][n..]] + chunks[1..]
  }

  lemma {:induction false} FlattenCons(chunk: Bin, rest: seq<Bin>)
    ensures Flatten([chunk] + rest) == chunk + Flatten(rest)
  {
    assert ([chunk] + rest)[1..] == rest;
  }

  lemma {:induction false} DroppedFlat(chunks: seq<Bin>, n: nat)
    requires chunks != [] && n <= |chunks[0]|
    ensures Flatten(chunks) == chunks[0][..n] + Flatten(Dropped(chunks, n))
  {
    var c, rest := chunks[0], chunks[1..];
    FlattenCons(c[n..], rest);
    var f := Flatten(rest);
    assert c[..n] + (c[n..] + f) == c + f;
    if n == |c| {
      assert c[..n] == c;
    }
  }

  lemma {:induction false} DroppedChunked(chunks: seq<Bin>, n: nat)
    requires Chunked(chunks) && chunks != [] && n <= |chunks[0]|
    ensures Chunked(Dropped(chunks, n))
  {
  }

  lemma {:induction false} Regroup(a: Bin, b: Bin, c: Bin)
    ensures a + (b + c) == a + b + c
  {
  }

  /** `AsyncBufRead`: the chunks still to come; none left means end of file. */
  class ChunkReader {
    var chunks: seq<Bin>

    ghost predicate Valid()
      reads this
    {
      Chunked(chunks)
    }

    ghost function Contents(): Bin
      reads this
    {
      Flatten(chunks)
    }

    constructor (chunks: seq<Bin>)
      requires Chunked(chunks)
      ensures Valid() && this.chunks == chunks
    {
      this.chunks := chunks;
    }

    /** The current chunk, empty only at end of file. */
    method FillBuf() returns (bytes: Bin)
      requires Valid()
      ensures bytes == if chunks == [] then [] else chunks[0]
    {
      bytes := if chunks == [] then [] else chunks[0];
    }

    method Consume(n: nat)
      requires Valid() && chunks != [] && n <= |chunks[0]|
      modifies this
      ensures Valid() && chunks == Dropped(old(chunks), n)
      ensures old(Contents()) == old(chunks[0])[..n] + Contents()
    {
      DroppedFlat(chunks, n);
      DroppedChunked(chunks, n);
      chunks := if n == |chunks[0]| then chunks[1..] else [chunks[0][n..]] + chunks[1..];
    }

    /** Exactly `n` bytes, however they are chunked; at end of file the bytes
        there were are lost. */
    method ReadExact(n: nat) returns (r: Result<Bin, ReadError>)
      requires Valid()
      modifies this
      ensures Valid()
      ensures |old(Contents())| >= n ==> r == Ok(old(Contents())[..n]) && Contents() == old(Contents())[n..]
      ensures |old(Contents())| < n ==> r == Err(UnexpectedEof) && Contents() == []
    {
      var got: Bin := [];
      while |got| < n
        invariant Valid() && |got| <= n
        invariant old(Contents()) == got + Contents()
        decreases n - |got|
      {
        var bytes := FillBuf();
        if bytes == [] {
          assert Contents() == [];
          return Err(UnexpectedEof);
        }
        var k := Min(|bytes|, n - |got|);
        Consume(k);
        Regroup(got, bytes[..k], Contents());
        got := got + bytes[..k];
      }
      r := Ok(got);
    }
  }

  // ----- plaintext lines -----

  /** Position of the first newline, or the length when there is none. */
  function NewlineAt(b: Bin): (p: nat)
    ensures p <= |b| && NEWLINE !in b[..p]
    ensures p < |b| ==> b[p] == NEWLINE
  {
    if b == [] || b[0] == NEWLINE then 0
    else
      var p := 1 + NewlineAt(b[1..]);
      assert b[..p] == [b[0]] + b[1..][..p - 1];
      p
  }

  /** The parts of the chunks that make up the first line, newline included
      (all of them when no newline comes), and the chunks after it. */
  function LineParts(chunks: seq<Bin>): (seq<Bin>, seq<Bin>) {
    if chunks == [] then ([], [])
    else
      var p := NewlineAt(chunks[0]);
      if p < |chunks[0]| then ([chunks[0][..p + 1]], Dropped(chunks, p + 1))
      else
        var (parts, rest) := LineParts(chunks[1..]);
        ([chunks[0]] + parts, rest)
  }

  /** Each part is decoded by itself. */
  function LossyParts(parts: seq<Bin>): Text {
    if parts == [] then [] else Lossy(parts[0]) + LossyParts(parts[1..])
  }

  lemma {:induction false} LossyPartsAppend(parts: seq<Bin>, part: Bin)
    ensures LossyParts(parts + [part]) == LossyParts(parts) + Lossy(part)
  {
    if parts == [] {
      assert [] + [part] == [part];
    } else {
      assert (parts + [part])[1..] == parts[1..] + [part];
      LossyPartsAppend(parts[1..], part);
    }
  }

  lemma {:induction false} FlattenAppend(parts: seq<Bin>, part: Bin)
    ensures Flatten(parts + [part]) == Flatten(parts) + part
  {
    if parts == [] {
      assert [] + [part] == [part];
    } else {
      assert (parts + [part])[1..] == parts[1..] + [part];
      FlattenAppend(parts[1..], part);
    }
  }

  lemma {:induction false} NewlineAtConcat(a: Bin, b: Bin)
    ensures NewlineAt(a + b) == if NewlineAt(a) < |a| then NewlineAt(a) else |a| + NewlineAt(b)
  {
    if a == [] {
      assert a + b == b;
    } else {
      assert (a + b)[1..] == a[1..] + b;
      NewlineAtConcat(a[1..], b);
    }
  }

  /** Length of the first line of the whole content, newline included. */
  function LineLength(b: Bin): nat {
    if NewlineAt(b) < |b| then NewlineAt(b) + 1 else |b|
  }

  /** The parts cut the content after its first line, wherever the chunks end. */
  lemma {:induction false} LinePartsFlat(chunks: seq<Bin>)
    ensures var (parts, rest) := LineParts(chunks);
      && Flatten(chunks) == Flatten(parts) + Flatten(rest)
      && |Flatten(parts)| == LineLength(Flatten(chunks))
  {
    if chunks != [] {
      var c := chunks[0];
      NewlineAtConcat(c, Flatten(chunks[1..]));
      if NewlineAt(c) < |c| {
        LineEndsHere(chunks);
      } else {
        LinePartsFlat(chunks[1..]);
        LineGoesOn(chunks);
      }
    }
  }

  lemma {:induction false} LineGoesOn(chunks: seq<Bin>)
    requires chunks != [] && NewlineAt(chunks[0]) == |chunks[0]|
    requires var (parts, rest) := LineParts(chunks[1..]); Flatten(chunks[1..]) == Flatten(parts) + Flatten(rest)
    ensures var (parts, rest) := LineParts(chunks);
      && Flatten(chunks) == Flatten(parts) + Flatten(rest)
      && |Flatten(parts)| == |chunks[0]| + |Flatten(LineParts(chunks[1..]).0)|
  {
    var c := chunks[0];
    var (parts, rest) := LineParts(chunks[1..]);
    FlattenCons(c, parts);
    assert c + (Flatten(parts) + Flatten(rest)) == (c + Flatten(parts)) + Flatten(rest);
  }

  lemma {:induction false} LineEndsHere(chunks: seq<Bin>)
    requires chunks != [] && NewlineAt(chunks[0]) < |chunks[0]|
    ensures var (parts, rest) := LineParts(chunks);
      Flatten(chunks) == Flatten(parts) + Flatten(rest) && |Flatten(parts)| == NewlineAt(chunks[0]) + 1
  {
    var n := NewlineAt(chunks[0]) + 1;
    assert LineParts(chunks) == ([chunks[0][..n]], Dropped(chunks, n));
    DroppedFlat(chunks, n);
    FlattenOne(chunks[0][..n]);
  }

  lemma {:induction false} FlattenOne(chunk: Bin)
    ensures Flatten([chunk]) == chunk
  {
    FlattenCons(chunk, []);
    assert [chunk] + [] == [chunk] && chunk + [] == chunk;
  }

  lemma {:induction false} LinePartsChunked(chunks: seq<Bin>)
    requires Chunked(chunks)
    ensures Chunked(LineParts(chunks).0) && Chunked(LineParts(chunks).1)
  {
    if chunks != [] {
      if NewlineAt(chunks[0]) < |chunks[0]| {
        DroppedChunked(chunks, NewlineAt(chunks[0]) + 1);
      } else {
        LinePartsChunked(chunks[1..]);
      }
    }
  }

  /** Read one line: an error when it exceeds the maximum, and otherwise the
      parts decoded one by one, with exactly the line consumed. */
  method ReadLine(reader: ChunkReader) returns (r: Result<Text, ReadError>)
    requires reader.Valid()
    modifies reader
    ensures reader.Valid()
    ensures LineLength(old(reader.Contents())) > 1_048_576 ==> r == Err(LineTooLong)
    ensures LineLength(old(reader.Contents())) <= 1_048_576 ==>
      var (parts, rest) := LineParts(old(reader.chunks));
      r == Ok(LossyParts(parts)) && reader.chunks == rest
  {
    ghost var all := LineParts(reader.chunks);
    LinePartsFlat(reader.chunks);
    ghost var parts: seq<Bin> := [];
    var line: Text := [];
    var total := 0;
    while true
      invariant reader.Valid()
      invariant all.0 == parts + LineParts(reader.chunks).0 && all.1 == LineParts(reader.chunks).1
      invariant line == LossyParts(parts) && total == |Flatten(parts)| <= MAX_FRAME
      decreases |reader.chunks|
    {
      var bytes := reader.FillBuf();
      if bytes == [] {
        assert all.0 == parts;
        return Ok(line);
      }
      var pos := NewlineAt(bytes);
      var k := if pos < |bytes| then pos + 1 else |bytes|;
      ghost var tail := LinePartsHead(reader.chunks, k);
      LongerLine(parts, bytes[..k], tail);
      if total + k > MAX_FRAME {
        return Err(LineTooLong);
      }
      ghost var before := reader.chunks;
      line := line + Lossy(bytes[..k]);
      reader.Consume(k);
      parts := parts + [bytes[..k]];
      if pos < |bytes| {
        assert all.0 == parts;
        return Ok(line);
      }
      total := total + k;
      assert reader.chunks == before[1..];
    }
  }

  lemma {:induction false} LinePartsHead(chunks: seq<Bin>, k: nat) returns (tail: seq<Bin>)
    requires chunks != [] && k == if NewlineAt(chunks[0]) < |chunks[0]| then NewlineAt(chunks[0]) + 1 else |chunks[0]|
    ensures tail == if NewlineAt(chunks[0]) < |chunks[0]| then [] else LineParts(chunks[1..]).0
    ensures LineParts(chunks).0 == [chunks[0][..k]] + tail
  {
    tail := if NewlineAt(chunks[0]) < |chunks[0]| then [] else LineParts(chunks[1..]).0;
    assert k == |chunks[0]| ==> chunks[0][..k] == chunks[0];
  }

  /** One more part of the line: what it adds. */
  lemma {:induction false} LongerLine(parts: seq<Bin>, part: Bin, tail: seq<Bin>)
    ensures parts + ([part] + tail) == (parts + [part]) + tail
    ensures |Flatten(parts + [part])| == |Flatten(parts)| + |part| <= |Flatten(parts + ([part] + tail))|
    ensures LossyParts(parts + [part]) == LossyParts(parts) + Lossy(part)
  {
    assert parts + ([part] + tail) == (parts + [part]) + tail;
    FlattenAppend(parts, part);
    LossyPartsAppend(parts, part);
    FlattenPrefix(parts + [part], tail);
  }

  lemma {:induction false} FlattenPrefix(a: seq<Bin>, b: seq<Bin>)
    ensures Flatten(a + b) == Flatten(a) + Flatten(b)
  {
    if a == [] {
      assert a + b == b;
    } else {
      assert (a + b)[1..] == a[1..] + b;
      FlattenPrefix(a[1..], b);
    }
  }

  // ----- protected frames -----

  /** Read one frame from the flat contents: the message or an error, the
      receiver's next sequence number, and the bytes left. */
  function ReadFrame(aead: Aead, d: Direction, s: nat, b: Bin): (Result<Text, ReadError>, nat, Bin) {
    if |b| < LEN_PREFIX then (Err(UnexpectedEof), s, [])
    else
      var len := BeValue(b[..LEN_PREFIX]);
      if len > MAX_FRAME then (Err(FrameTooLarge), s, b[LEN_PREFIX..])
      else if |b| < LEN_PREFIX + len then (Err(UnexpectedEof), s, [])
      else
        var r := Open(aead, d, s, b[LEN_PREFIX..LEN_PREFIX + len]);
        (if r.Ok? then Ok(Lossy(r.value)) else Err(Codec(r.error)), Advance(s, r), b[LEN_PREFIX + len..])
  }

  /** One frame: a big-endian length, cut to 32 bits, and the sealed payload. */
  function FrameMessage(aead: Aead, d: Direction, s: nat, t: Text): Result<Bin, CodecError> {
    var r := Seal(aead, d, s, Encode(t));
    if r.Ok? then Ok(BeBytes(|r.value| % (U32_MAX + 1), LEN_PREFIX) + r.value) else r
  }

  /** A frame byte by byte: four bytes of length, the high one first, then the
      eight of the sequence number and the ciphertext. */
  lemma {:induction false} FrameLayout(aead: Aead, d: Direction, s: nat, t: Text)
    requires FrameMessage(aead, d, s, t).Ok? && Seal(aead, d, s, Encode(t)).Ok?
    ensures var sealed := Seal(aead, d, s, Encode(t)).value;
      var n := |sealed|;
      n <= U32_MAX ==>
        FrameMessage(aead, d, s, t).value == [n / 0x100_0000, n / 0x1_0000 % 0x100, n / 0x100 % 0x100, n % 0x100] + sealed
  {
    var n := |Seal(aead, d, s, Encode(t)).value|;
    if n <= U32_MAX {
      BeFour(n);
    }
  }

  /** What a reader makes of any bytes: the first four are the length of the
      payload, at most a mebibyte; the payload must be there, and open. */
  lemma {:induction false} FrameIsReadSo(aead: Aead, d: Direction, s: nat, b: Bin)
    ensures var (r, next, rest) := ReadFrame(aead, d, s, b);
      if |b| < 4 then r == Err(UnexpectedEof) && next == s
      else
        var len := 0x100_0000 * b[0] as nat + 0x1_0000 * b[1] as nat + 0x100 * b[2] as nat + b[3] as nat;
        if len > 1_048_576 then r == Err(FrameTooLarge) && next == s && rest == b[4..]
        else if |b| < 4 + len then r == Err(UnexpectedEof) && next == s
        else
          var result := Open(aead, d, s, b[4..4 + len]);
          && rest == b[4 + len..]
          && next == (if result.Ok? then s + 1 else s)
          && r == if result.Ok? then Ok(Lossy(result.value)) else Err(Codec(result.error))
  {
    if |b| >= 4 {
      BeValueOfFour(b[..4]);
    }
  }

  datatype ControlReader = PlainReader | ProtectedReader(recv: Codec) {
    method ReadMessage(reader: ChunkReader) returns (r: Result<Text, ReadError>)
      requires reader.Valid() && (ProtectedReader? ==> recv.Valid())
      modifies reader, if ProtectedReader? then {recv} else {}
      ensures reader.Valid()
      ensures PlainReader? ==> LineLength(old(reader.Contents())) > 1_048_576 ==> r == Err(LineTooLong)
      ensures PlainReader? && LineLength(old(reader.Contents())) <= 1_048_576 ==>
        var (parts, rest) := LineParts(old(reader.chunks));
        r == Ok(LossyParts(parts)) && reader.chunks == rest
      ensures ProtectedReader? ==> recv.Valid()
      ensures ProtectedReader? ==>
        (r, recv.seqno, reader.Contents()) == ReadFrame(recv.aead, recv.direction, old(recv.seqno), old(reader.Contents()))
    {
      match this {
        case PlainReader =>
          r := ReadLine(reader);
        case ProtectedReader(recv) =>
          ghost var b := reader.Contents();
          var lenBuf := reader.ReadExact(LEN_PREFIX);
          if lenBuf.Err? {
            return Err(lenBuf.error);
          }
          var len := BeValue(lenBuf.value);
          if len > MAX_FRAME {
            return Err(FrameTooLarge);
          }
          var payload := reader.ReadExact(len);
          if payload.Err? {
            return Err(payload.error);
          }
          assert b[LEN_PREFIX..][..len] == b[LEN_PREFIX..LEN_PREFIX + len];
          assert b[LEN_PREFIX..][len..] == b[LEN_PREFIX + len..];
          var plaintext := recv.OpenPayload(payload.value);
          r := if plaintext.Ok? then Ok(Lossy(plaintext.value)) else Err(Codec(plaintext.error));
      }
    }
  }

  datatype ControlWriter = PlainWriter | ProtectedWriter(send: Codec) {
    /** Encode one complete message; a protected one takes one sequence number. */
    method EncodeMessage(t: Text) returns (r: Result<Bin, CodecError>)
      requires ProtectedWriter? ==> send.Valid()
      modifies if ProtectedWriter? then {send} else {}
      ensures PlainWriter? ==> r == Ok(Encode(t) + [NEWLINE])
      ensures ProtectedWriter? ==> send.Valid()
      ensures ProtectedWriter? ==>
        r == FrameMessage(send.aead, send.direction, old(send.seqno), t) && send.seqno == Advance(old(send.seqno), r)
    {
      match this {
        case PlainWriter =>
          r := Ok(Encode(t) + [NEWLINE]);
        case ProtectedWriter(send) =>
          var payload := send.SealMessage(Encode(t));
          if payload.Err? {
            return payload;
          }
          var frame := BeBytes(|payload.value| % (U32_MAX + 1), LEN_PREFIX);
          r := Ok(frame + payload.value);
      }
    }
  }

  const OVERHEAD: nat := SEQ_LEN + TAG_LEN

  lemma {:induction false} PrefixSplits(payload: Bin, tail: Bin)
    requires |payload| <= U32_MAX
    ensures var b := BeBytes(|payload|, LEN_PREFIX) + payload + tail;
      && BeValue(b[..LEN_PREFIX]) == |payload|
      && b[LEN_PREFIX..LEN_PREFIX + |payload|] == payload
      && b[LEN_PREFIX + |payload|..] == tail
  {
    Widths();
    BeRoundTrip(|payload|, LEN_PREFIX);
    var prefix := BeBytes(|payload|, LEN_PREFIX);
    assert (prefix + payload + tail)[..LEN_PREFIX] == prefix;
  }

  lemma {:induction false} PayloadReadsBack(aead: Aead, d: Direction, s: nat, payload: Bin, t: Text, tail: Bin)
    requires |payload| <= U32_MAX && Open(aead, d, s, payload) == Ok(Encode(t))
    ensures var b := BeBytes(|payload| % (U32_MAX + 1), LEN_PREFIX) + payload + tail;
      if |payload| <= MAX_FRAME then ReadFrame(aead, d, s, b) == (Ok(t), s + 1, tail)
      else ReadFrame(aead, d, s, b).0 == Err(FrameTooLarge)
  {
    PrefixSplits(payload, tail);
    RoundTrip(t);
  }

  /** A message written at `s` is read back at `s`, consuming exactly its frame,
      if and only if it has at most 1048552 bytes. */
  lemma {:induction false} FrameReadsBack(aead: Aead, d: Direction, s: nat, t: Text, tail: Bin)
    requires Correct(aead) && s <= U64_MAX && FrameMessage(aead, d, s, t).Ok?
    requires |Encode(t)| + OVERHEAD <= U32_MAX // else the length prefix is cut
    ensures var b := FrameMessage(aead, d, s, t).value + tail;
      if |Encode(t)| <= 1048552 then ReadFrame(aead, d, s, b) == (Ok(t), s + 1, tail)
      else ReadFrame(aead, d, s, b).0 == Err(FrameTooLarge)
  {
    OpenSealed(aead, d, s, Encode(t));
    PayloadReadsBack(aead, d, s, Seal(aead, d, s, Encode(t)).value, t, tail);
  }

  /** A read at sequence number `s` yields the text `t` and leaves `rest`. */
  predicate ReadsAs(aead: Aead, d: Direction, s: nat, b: Bin, t: Text, rest: Bin) {
    ReadFrame(aead, d, s, b) == (Ok(t), s + 1, rest)
  }

  /** What the writer produced for a message of readable size. */
  predicate IsFrame(aead: Aead, d: Direction, s: nat, t: Text, frame: Bin) {
    FrameMessage(aead, d, s, t) == Ok(frame) && |Encode(t)| <= 1048552
  }

  /** A frame that reads back, whatever follows it. */
  ghost predicate Readable(aead: Aead, d: Direction, s: nat, t: Text, frame: Bin) {
    forall rest: Bin :: ReadsAs(aead, d, s, frame + rest, t, rest)
  }

  lemma {:induction false} FrameIsReadable(aead: Aead, d: Direction, s: nat, t: Text, frame: Bin)
    requires Correct(aead) && s <= U64_MAX && IsFrame(aead, d, s, t, frame)
    ensures Readable(aead, d, s, t, frame)
  {
    forall rest: Bin
      ensures ReadsAs(aead, d, s, frame + rest, t, rest)
    {
      FrameReadsBack(aead, d, s, t, rest);
    }
  }

  lemma {:induction false} FirstFrameReadsBack(aead: Aead, d: Direction, s: nat, t: Text, frame: Bin, after: seq<Bin>, tail: Bin)
    requires Readable(aead, d, s, t, frame)
    ensures ReadsAs(aead, d, s, Flatten([frame] + after) + tail, t, Flatten(after) + tail)
  {
    FlattenCons(frame, after);
    var rest := Flatten(after);
    assert (frame + rest) + tail == frame + (rest + tail);
  }

  /** `n` protected reads in a row: the texts, the next sequence number and
      what is left, or `None` if one of them failed. */
  function ReadFrames(aead: Aead, d: Direction, s: nat, b: Bin, n: nat): Option<(seq<Text>, nat, Bin)>
    decreases n
  {
    if n == 0 then Some(([], s, b))
    else
      var (r, s', rest) := ReadFrame(aead, d, s, b);
      if r.Err? then None
      else
        match ReadFrames(aead, d, s', rest, n - 1)
        case None => None
        case Some((texts, end, left)) => Some(([r.value] + texts, end, left))
  }

  /** Reading as many messages as there are texts yields just them and leaves `rest`. */
  predicate ReadsAll(aead: Aead, d: Direction, s: nat, b: Bin, texts: seq<Text>, rest: Bin) {
    ReadFrames(aead, d, s, b, |texts|) == Some((texts, s + |texts|, rest))
  }

  /** Frame `i` was written for message `i`, all at consecutive sequence numbers. */
  predicate Written(aead: Aead, d: Direction, s: nat, messages: seq<Text>, frames: seq<Bin>) {
    && |frames| == |messages| && s + |messages| <= U64_MAX
    && forall i: nat :: i < |messages| ==> WrittenAt(aead, d, s, messages, frames, i)
  }

  predicate WrittenAt(aead: Aead, d: Direction, s: nat, messages: seq<Text>, frames: seq<Bin>, i: nat)
    requires i < |messages| == |frames|
  {
    IsFrame(aead, d, s + i, messages[i], frames[i])
  }

  /** Concatenated frames, followed by anything: a reader that keeps reading
      gets exactly the messages, in order, each from exactly its own frame.
      Reading works on the flat contents, so any chunking will do. */
  lemma {:induction false} FramesReadBack(aead: Aead, d: Direction, s: nat, messages: seq<Text>, frames: seq<Bin>, tail: Bin)
    requires Correct(aead) && Written(aead, d, s, messages, frames)
    ensures ReadsAll(aead, d, s, Flatten(frames) + tail, messages, tail)
    decreases |messages|
  {
    if messages == [] {
      assert frames == [];
      NothingLeft(aead, d, s, tail);
    } else {
      WrittenTail(aead, d, s, messages, frames);
      FramesReadBack(aead, d, s + 1, messages[1..], frames[1..], tail);
      FirstOfFrames(aead, d, s, messages, frames, tail);
    }
  }

  lemma {:induction false} FirstOfFrames(aead: Aead, d: Direction, s: nat, messages: seq<Text>, frames: seq<Bin>, tail: Bin)
    requires Correct(aead) && messages != [] && Written(aead, d, s, messages, frames)
    requires ReadsAll(aead, d, s + 1, Flatten(frames[1..]) + tail, messages[1..], tail)
    ensures ReadsAll(aead, d, s, Flatten(frames) + tail, messages, tail)
  {
    HeadAndTail(frames);
    HeadAndTail(messages);
    WrittenTail(aead, d, s, messages, frames);
    OneMoreFrame(aead, d, s, messages[0], frames[0], messages[1..], frames[1..], tail);
  }

  lemma {:induction false} NothingLeft(aead: Aead, d: Direction, s: nat, tail: Bin)
    ensures ReadsAll(aead, d, s, Flatten([]) + tail, [], tail)
  {
    assert Flatten([]) + tail == tail;
  }

  lemma {:induction false} HeadAndTail<T>(s: seq<T>)
    requires s != []
    ensures [s[0]] + s[1..] == s
  {
  }

  lemma {:induction false} OneMoreFrame(aead: Aead, d: Direction, s: nat, t: Text, frame: Bin, texts: seq<Text>,
                                        others: seq<Bin>, tail: Bin)
    requires Correct(aead) && s <= U64_MAX && IsFrame(aead, d, s, t, frame)
    requires ReadsAll(aead, d, s + 1, Flatten(others) + tail, texts, tail)
    ensures ReadsAll(aead, d, s, Flatten([frame] + others) + tail, [t] + texts, tail)
  {
    FrameIsReadable(aead, d, s, t, frame);
    FirstFrameReadsBack(aead, d, s, t, frame, others, tail);
    ReadsOneMore(aead, d, s, Flatten([frame] + others) + tail, t, Flatten(others) + tail, texts, tail);
  }

  lemma {:induction false} WrittenTail(aead: Aead, d: Direction, s: nat, messages: seq<Text>, frames: seq<Bin>)
    requires messages != [] && Written(aead, d, s, messages, frames)
    ensures IsFrame(aead, d, s, messages[0], frames[0]) && Written(aead, d, s + 1, messages[1..], frames[1..])
  {
    assert WrittenAt(aead, d, s, messages, frames, 0);
    var texts, others, next := messages[1..], frames[1..], s + 1;
    forall i: nat | i < |texts|
      ensures WrittenAt(aead, d, next, texts, others, i)
    {
      assert WrittenAt(aead, d, s, messages, frames, i + 1);
    }
  }

  lemma {:induction false} ReadsOneMore(aead: Aead, d: Direction, s: nat, b: Bin, t: Text, mid: Bin, texts: seq<Text>, rest: Bin)
    requires ReadsAs(aead, d, s, b, t, mid) && ReadsAll(aead, d, s + 1, mid, texts, rest)
    ensures ReadsAll(aead, d, s, b, [t] + texts, rest)
  {
  }

  // ----- plaintext round trip -----

  predicate OneLine(t: Text) {
    NEWLINE !in t && |Encode(t)| + 1 <= MAX_FRAME
  }

  function Lines(messages: seq<Text>): Bin {
    if messages == [] then [] else Encode(messages[0]) + [NEWLINE] + Lines(messages[1..])
  }

  function WithNewlines(messages: seq<Text>): seq<Text> {
    seq(|messages|, i requires 0 <= i < |messages| => messages[i] + [NEWLINE])
  }

  /** `n` line reads in a row: the texts read and the chunks left, or `None`
      if one of them failed. */
  function ReadLines(chunks: seq<Bin>, n: nat): Option<(seq<Text>, seq<Bin>)>
    decreases n
  {
    if n == 0 then Some(([], chunks))
    else if LineLength(Flatten(chunks)) > MAX_FRAME then None
    else
      match ReadLines(LineParts(chunks).1, n - 1)
      case None => None
      case Some((texts, rest)) => Some(([LossyParts(LineParts(chunks).0)] + texts, rest))
  }

  /** No chunk begins in the middle of a character. */
  predicate CutsAtCharacters(chunks: seq<Bin>) {
    forall i :: 0 <= i < |chunks| ==> StartsCharacter(chunks[i])
  }

  lemma {:induction false} PartsLength(parts: seq<Bin>)
    ensures |LossyParts(parts)| >= Leads(Flatten(parts))
    ensures !CutsAtCharacters(parts) ==> |LossyParts(parts)| > Leads(Flatten(parts))
  {
    if parts != [] {
      LeadsConcat(parts[0], Flatten(parts[1..]));
      LossyLength(parts[0]);
      PartsLength(parts[1..]);
      if !CutsAtCharacters(parts) && StartsCharacter(parts[0]) {
        var i :| 0 <= i < |parts| && !StartsCharacter(parts[i]);
        assert parts[1..][i - 1] == parts[i];
      }
    }
  }

  lemma {:induction false} RestStartsCharacter(parts: seq<Bin>)
    requires Chunked(parts) && CutsAtCharacters(parts) && parts != []
    ensures StartsCharacter(Flatten(parts[1..])) && Chunked(parts[1..]) && CutsAtCharacters(parts[1..])
  {
    var rest := parts[1..];
    if rest != [] {
      assert rest[0] == parts[1] && Flatten(rest)[0] == rest[0][0];
    }
  }

  lemma {:induction false} PartsDecode(parts: seq<Bin>, t: Text)
    requires Chunked(parts) && Flatten(parts) == Encode(t) && CutsAtCharacters(parts)
    ensures LossyParts(parts) == t
  {
    if parts == [] {
      assert t == [];
    } else {
      var rest := parts[1..];
      RestStartsCharacter(parts);
      var k := CutAtBoundary(t, parts[0], Flatten(rest));
      RoundTrip(t[..k]);
      PartsDecode(rest, t[k..]);
      assert t == t[..k] + t[k..];
    }
  }

  /** Decoding part by part is right exactly when no part begins inside a character. */
  lemma {:induction false} PartsDecodeIff(parts: seq<Bin>, t: Text)
    requires Chunked(parts) && Flatten(parts) == Encode(t)
    ensures LossyParts(parts) == t <==> CutsAtCharacters(parts)
  {
    if CutsAtCharacters(parts) {
      PartsDecode(parts, t);
    } else {
      PartsLength(parts);
      LeadsOfEncoded(t);
    }
  }

  lemma {:induction false} FirstLine(t: Text, after: Bin)
    requires NEWLINE !in t
    ensures LineLength(Encode(t) + [NEWLINE] + after) == |Encode(t)| + 1
    ensures Encode(t) + [NEWLINE] == Encode(t + [NEWLINE])
  {
    NewlineByte(t);
    var e := Encode(t);
    assert e + [NEWLINE] + after == e + ([NEWLINE] + after);
    NewlineAtConcat(e, [NEWLINE] + after);
    assert NewlineAt(e) == |e|;
    EncodeConcat(t, [NEWLINE]);
    assert [NEWLINE][1..] == [];
    assert Encode([NEWLINE]) == [NEWLINE] + Encode([]);
  }

  lemma {:induction false} LinesStartCharacter(messages: seq<Text>)
    ensures StartsCharacter(Lines(messages))
  {
    if messages != [] {
      EncodedStartsCharacter(messages[0]);
    }
  }

  /** The chunks are cut at characters exactly when the parts of the first line
      and the chunks after it are. */
  lemma {:induction false} CutsSplit(chunks: seq<Bin>)
    requires Chunked(chunks) && StartsCharacter(Flatten(LineParts(chunks).1))
    ensures CutsAtCharacters(chunks) <==>
      CutsAtCharacters(LineParts(chunks).0) && CutsAtCharacters(LineParts(chunks).1)
  {
    if chunks != [] {
      var c, others := chunks[0], chunks[1..];
      CutsCons(c, others);
      assert chunks == [c] + others;
      var p := NewlineAt(c);
      if p < |c| {
        assert c[..p + 1][0] == c[0];
        assert [c[..p + 1]] + [] == [c[..p + 1]];
        CutsCons(c[..p + 1], []);
        if p + 1 < |c| {
          var left := c[p + 1..];
          assert Flatten(LineParts(chunks).1)[0] == left[0];
          CutsCons(left, others);
        }
      } else {
        CutsSplit(others);
        CutsCons(c, LineParts(others).0);
      }
    }
  }

  lemma {:induction false} CutsCons(chunk: Bin, rest: seq<Bin>)
    ensures CutsAtCharacters([chunk] + rest) <==> StartsCharacter(chunk) && CutsAtCharacters(rest)
  {
    var all := [chunk] + rest;
    assert all[0] == chunk;
    assert forall i :: 0 <= i < |rest| ==> all[i + 1] == rest[i];
    if CutsAtCharacters(all) {
      forall i | 0 <= i < |rest|
        ensures StartsCharacter(rest[i])
      {
        assert StartsCharacter(all[i + 1]);
      }
    }
  }

  /** One line read from chunks that hold it and `after`. */
  lemma {:induction false} LineReadsBack(t: Text, after: Bin, chunks: seq<Bin>)
    requires Chunked(chunks) && Flatten(chunks) == Encode(t) + [NEWLINE] + after
    requires OneLine(t) && StartsCharacter(after)
    ensures LineLength(Flatten(chunks)) <= MAX_FRAME
    ensures var (parts, rest) := LineParts(chunks);
      && Chunked(rest) && Flatten(rest) == after
      && (LossyParts(parts) == t + [NEWLINE] && CutsAtCharacters(rest) <==> CutsAtCharacters(chunks))
  {
    FirstLine(t, after);
    LinePartsFlat(chunks);
    LinePartsChunked(chunks);
    var (parts, rest) := LineParts(chunks);
    var line := Encode(t) + [NEWLINE];
    assert Flatten(parts) == (line + after)[..|line|] == line;
    assert Flatten(rest) == (line + after)[|line|..] == after;
    PartsDecodeIff(parts, t + [NEWLINE]);
    CutsSplit(chunks);
  }

  lemma {:induction false} FlattenEmpty(chunks: seq<Bin>)
    requires Chunked(chunks)
    ensures Flatten(chunks) == [] <==> chunks == []
  {
    if chunks != [] {
      assert |Flatten(chunks)| >= |chunks[0]|;
    }
  }

  /** As many reads as messages all succeed and leave nothing, and the texts
      read are the messages exactly when the chunks are cut at characters. */
  predicate ReadRight(messages: seq<Text>, chunks: seq<Bin>) {
    match ReadLines(chunks, |messages|)
    case None => false
    case Some((texts, rest)) =>
      && |texts| == |messages| && rest == []
      && (texts == WithNewlines(messages) <==> CutsAtCharacters(chunks))
  }

  /** Lines of messages, in any chunking: every read succeeds and consumes one
      line, and the text read is right exactly when no chunk boundary falls
      inside a multi-byte character. */
  lemma {:induction false} LinesReadBack(messages: seq<Text>, chunks: seq<Bin>)
    requires Chunked(chunks) && Flatten(chunks) == Lines(messages)
    requires forall i :: 0 <= i < |messages| ==> OneLine(messages[i])
    ensures ReadRight(messages, chunks)
    decreases |messages|
  {
    if messages == [] {
      FlattenEmpty(chunks);
    } else {
      var (parts, rest) := LineParts(chunks);
      LinesStartCharacter(messages[1..]);
      LineReadsBack(messages[0], Lines(messages[1..]), chunks);
      LinesReadBack(messages[1..], rest);
      OneMoreLine(messages, chunks);
    }
  }

  lemma {:induction false} OneMoreLine(messages: seq<Text>, chunks: seq<Bin>)
    requires messages != [] && LineLength(Flatten(chunks)) <= MAX_FRAME
    requires var (parts, rest) := LineParts(chunks);
      && ReadRight(messages[1..], rest)
      && (LossyParts(parts) == messages[0] + [NEWLINE] && CutsAtCharacters(rest) <==> CutsAtCharacters(chunks))
    ensures ReadRight(messages, chunks)
  {
    var (parts, rest) := LineParts(chunks);
    var (texts, end) := ReadLines(rest, |messages| - 1).value;
    ReadsOneLine(chunks, |messages|, texts, end);
    SameLines(messages, LossyParts(parts), texts);
  }

  lemma {:induction false} ReadsOneLine(chunks: seq<Bin>, n: nat, texts: seq<Text>, end: seq<Bin>)
    requires n > 0 && LineLength(Flatten(chunks)) <= MAX_FRAME
    requires ReadLines(LineParts(chunks).1, n - 1) == Some((texts, end))
    ensures ReadLines(chunks, n) == Some(([LossyParts(LineParts(chunks).0)] + texts, end))
  {
  }

  lemma {:induction false} SameLines(messages: seq<Text>, first: Text, others: seq<Text>)
    requires messages != []
    ensures [first] + others == WithNewlines(messages) <==>
      first == messages[0] + [NEWLINE] && others == WithNewlines(messages[1..])
  {
    var all := WithNewlines(messages);
    assert all == [messages[0] + [NEWLINE]] + WithNewlines(messages[1..]);
    if [first] + others == all {
      assert ([first] + others)[0] == all[0] && ([first] + others)[1..] == all[1..];
    }
  }
}
