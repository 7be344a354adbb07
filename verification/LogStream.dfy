/** Decoding Docker's multiplexed log streams (agent/docker.go). */
module LogStream {
  import opened Common

  type Bytes = seq<byte>

  const MAX_LOG_FRAME_SIZE: nat := 1_048_576
  const MAX_TOTAL_LOG_SIZE: nat := 5_242_880

  /** What a reader has to give before it ends, and whether it ends with an error. */
  datatype Input = Input(data: Bytes, fails: bool)

  // ---------------------------------------------------------------------- framing

  /** The header of a frame is four bytes that name the stream, which the decoder passes
      over, and the size of the payload in four bytes. */
  datatype Frame = Frame(stream: Bytes, size: Bytes, payload: Bytes)

  predicate Encodable(frame: Frame) {
    |frame.stream| == 4 && |frame.size| == 4 && Uint32(frame.size) == |frame.payload|
  }

  function Uint16(high: byte, low: byte): (n: nat)
    ensures n < 0x1_0000
  {
    high as int * 0x100 + low as int
  }

  /** Big-endian. */
  function Uint32(b: Bytes): (n: nat)
    requires |b| == 4
    ensures n < 0x1_0000_0000
  {
    Uint16(b[0], b[1]) * 0x1_0000 + Uint16(b[2], b[3])
  }

  /** The first byte weighs most. */
  lemma {:induction false} BigEndian(b: Bytes)
    requires |b| == 4
    ensures Uint32(b) == b[0] as int * 16_777_216 + b[1] as int * 65_536 + b[2] as int * 256 + b[3] as int
  {
  }

  function PutUint16(n: nat): (b: (byte, byte))
    requires n < 0x1_0000
    ensures Uint16(b.0, b.1) == n
  {
    ((n / 0x100) as byte, (n % 0x100) as byte)
  }

  function PutUint32(n: nat): (b: Bytes)
    requires n < 0x1_0000_0000
    ensures |b| == 4 && Uint32(b) == n
  {
    var high, low := PutUint16(n / 0x1_0000), PutUint16(n % 0x1_0000);
    [high.0, high.1, low.0, low.1]
  }

  function Encode(frame: Frame): (data: Bytes)
    requires Encodable(frame)
    ensures |data| == 8 + |frame.payload|
  {
    frame.stream + frame.size + frame.payload
  }

  /** A frame for any payload whose length fits the header. */
  function Framed(stream: Bytes, payload: Bytes): (frame: Frame)
    requires |stream| == 4 && |payload| < 0x1_0000_0000
    ensures Encodable(frame) && frame.payload == payload
  {
    Frame(stream, PutUint32(|payload|), payload)
  }

  ghost predicate AllEncodable(frames: seq<Frame>) {
    forall i :: 0 <= i < |frames| ==> Encodable(frames[i])
  }

  function EncodeAll(frames: seq<Frame>): Bytes
    requires AllEncodable(frames)
  {
    if |frames| == 0 then [] else Encode(frames[0]) + EncodeAll(frames[1..])
  }

  function Payloads(frames: seq<Frame>): Bytes {
    if |frames| == 0 then [] else frames[0].payload + Payloads(frames[1..])
  }

  function FrameLength(data: Bytes): (n: nat)
    requires |data| >= 8
  {
    Uint32(data[4..8])
  }

  /** The frame at the front of the input, if it is there as a whole. */
  function FirstFrame(data: Bytes): Frame
    requires |data| >= 8 && |data| >= 8 + FrameLength(data)
  {
    Frame(data[..4], data[4..8], data[8..8 + FrameLength(data)])
  }

  lemma {:induction false} EncodeFirst(data: Bytes)
    requires |data| >= 8 && |data| >= 8 + FrameLength(data)
    ensures Encodable(FirstFrame(data)) && data == Encode(FirstFrame(data)) + data[8 + FrameLength(data)..]
  {
    var n := FrameLength(data);
    assert data == data[..4] + data[4..8] + data[8..8 + n] + data[8 + n..];
  }

  /** An encoded frame is read back, whatever follows. */
  lemma {:induction false} FirstEncoded(frame: Frame, rest: Bytes)
    requires Encodable(frame)
    ensures var data := Encode(frame) + rest;
      && FrameLength(data) == |frame.payload| && FirstFrame(data) == frame && data[8 + FrameLength(data)..] == rest
  {
    var data, n := Encode(frame) + rest, |frame.payload|;
    assert data[..4] == frame.stream && data[4..8] == frame.size;
    assert data[8..8 + n] == frame.payload && data[8 + n..] == rest;
  }

  // ---------------------------------------------------------- what the decoder does

  /** Frames the decoder takes: none too large, and not too much in all. */
  ghost predicate Accepted(frames: seq<Frame>) {
    && AllEncodable(frames)
    && (forall i :: 0 <= i < |frames| ==> |frames[i].payload| <= MAX_LOG_FRAME_SIZE)
    && |Payloads(frames)| <= MAX_TOTAL_LOG_SIZE
  }

  /** A frame of an allowed size starts at the front, whole or not. */
  predicate Allowed(rest: Bytes, total: nat) {
    |rest| >= 8 && FrameLength(rest) <= MAX_LOG_FRAME_SIZE && total + FrameLength(rest) <= MAX_TOTAL_LOG_SIZE
  }

  /** No further frame can be taken. */
  predicate Stuck(rest: Bytes, total: nat) {
    Allowed(rest, total) ==> |rest| < 8 + FrameLength(rest)
  }

  /** The part of a frame that the input still has. */
  function Truncated(rest: Bytes, total: nat): Bytes {
    if Allowed(rest, total) then rest[8..] else []
  }

  /** A frame too large, or an input that fails before the decoder is done with it. */
  predicate Fails(input: Input, rest: Bytes, total: nat) {
    if |rest| < 8 then input.fails
    else if FrameLength(rest) > MAX_LOG_FRAME_SIZE then true
    else Allowed(rest, total) && input.fails
  }

  /** The input is the accepted frames, then something that cannot be taken. */
  ghost predicate Splits(data: Bytes, frames: seq<Frame>, rest: Bytes) {
    Accepted(frames) && data == EncodeAll(frames) + rest && Stuck(rest, |Payloads(frames)|)
  }

  lemma {:induction false} PayloadsOn(frames: seq<Frame>, frame: Frame)
    ensures Payloads(frames + [frame]) == Payloads(frames) + frame.payload
  {
    if |frames| == 0 {
    } else {
      PayloadsOn(frames[1..], frame);
      assert (frames + [frame])[1..] == frames[1..] + [frame];
      Associate(frames[0].payload, Payloads(frames[1..]), frame.payload);
    }
  }

  lemma {:induction false} EncodeAllOn(frames: seq<Frame>, frame: Frame)
    requires AllEncodable(frames) && Encodable(frame)
    ensures AllEncodable(frames + [frame]) && EncodeAll(frames + [frame]) == EncodeAll(frames) + Encode(frame)
  {
    if |frames| == 0 {
    } else {
      EncodeAllOn(frames[1..], frame);
      assert (frames + [frame])[1..] == frames[1..] + [frame];
      Associate(Encode(frames[0]), EncodeAll(frames[1..]), Encode(frame));
    }
  }

  lemma {:induction false} AcceptOne(frames: seq<Frame>, rest: Bytes)
    requires Accepted(frames) && !Stuck(rest, |Payloads(frames)|)
    ensures var frame := FirstFrame(rest);
      && Accepted(frames + [frame]) && Payloads(frames + [frame]) == Payloads(frames) + frame.payload
      && EncodeAll(frames) + rest == EncodeAll(frames + [frame]) + rest[8 + FrameLength(rest)..]
  {
    var frame := FirstFrame(rest);
    EncodeFirst(rest);
    EncodeAllOn(frames, frame);
    PayloadsOn(frames, frame);
    Associate(EncodeAll(frames), Encode(frame), rest[8 + FrameLength(rest)..]);
  }

  /** Frames that can be taken after `total` bytes, and nothing more after them. */
  ghost predicate Taken(frames: seq<Frame>, rest: Bytes, total: nat) {
    && AllEncodable(frames) && (forall i :: 0 <= i < |frames| ==> |frames[i].payload| <= MAX_LOG_FRAME_SIZE)
    && total + |Payloads(frames)| <= MAX_TOTAL_LOG_SIZE && Stuck(rest, total + |Payloads(frames)|)
  }

  lemma {:induction false} FirstOf(frames: seq<Frame>, rest: Bytes)
    requires AllEncodable(frames) && |frames| > 0
    ensures var data := EncodeAll(frames) + rest;
      && |data| >= 8 + FrameLength(data) && FrameLength(data) == |frames[0].payload| && FirstFrame(data) == frames[0]
      && data[8 + FrameLength(data)..] == EncodeAll(frames[1..]) + rest
  {
    Associate(Encode(frames[0]), EncodeAll(frames[1..]), rest);
    FirstEncoded(frames[0], EncodeAll(frames[1..]) + rest);
  }

  /** If a frame can be taken the input is not stuck. */
  lemma {:induction false} TakenIsNotStuck(frames: seq<Frame>, rest: Bytes, total: nat)
    requires Taken(frames, rest, total) && |frames| > 0
    ensures !Stuck(EncodeAll(frames) + rest, total)
  {
    FirstOf(frames, rest);
  }

  lemma {:induction false} TakenRest(frames: seq<Frame>, rest: Bytes, total: nat)
    requires Taken(frames, rest, total) && |frames| > 0
    ensures Taken(frames[1..], rest, total + |frames[0].payload|)
  {
  }

  lemma {:induction false} TakenIsUnique(a: seq<Frame>, restA: Bytes, b: seq<Frame>, restB: Bytes, total: nat)
    requires Taken(a, restA, total) && Taken(b, restB, total) && EncodeAll(a) + restA == EncodeAll(b) + restB
    ensures a == b && restA == restB
    decreases |a|
  {
    if |a| > 0 && |b| > 0 {
      FirstOf(a, restA);
      FirstOf(b, restB);
      TakenRest(a, restA, total);
      TakenRest(b, restB, total);
      TakenIsUnique(a[1..], restA, b[1..], restB, total + |a[0].payload|);
      assert a == [a[0]] + a[1..] && b == [b[0]] + b[1..];
    } else if |a| > 0 {
      assert EncodeAll(b) + restB == restB;
      TakenIsNotStuck(a, restA, total);
    } else if |b| > 0 {
      assert EncodeAll(a) + restA == restA;
      TakenIsNotStuck(b, restB, total);
    } else {
      assert EncodeAll(a) + restA == restA && EncodeAll(b) + restB == restB;
    }
  }

  /** There is only one such split: the accepted frames are the longest possible prefix. */
  lemma {:induction false} SplitIsUnique(data: Bytes, a: seq<Frame>, restA: Bytes, b: seq<Frame>, restB: Bytes)
    requires Splits(data, a, restA) && Splits(data, b, restB)
    ensures a == b && restA == restB
  {
    TakenIsUnique(a, restA, b, restB, 0);
  }

  // -------------------------------------------------------------------- the decoder

  /** The frames read so far, what is still to be read and what has been written. */
  ghost predicate Progress(data: Bytes, frames: seq<Frame>, reader: Bytes, output: Bytes) {
    Accepted(frames) && data == EncodeAll(frames) + reader && output == Payloads(frames)
  }

  lemma {:induction false} ProgressOn(data: Bytes, frames: seq<Frame>, reader: Bytes, output: Bytes)
    requires Progress(data, frames, reader, output) && !Stuck(reader, |output|)
    ensures var end := 8 + FrameLength(reader);
      Progress(data, frames + [FirstFrame(reader)], reader[end..], output + reader[8..end])
  {
    AcceptOne(frames, reader);
  }

  /** The decoder on a multiplexed stream. What it writes is at most the limit: the
      payloads of the longest accepted prefix of frames and, of a frame that the end of
      the input cuts short, the part that is there. */
  method DecodeMultiplexed(input: Input)
    returns (output: Bytes, failed: bool, ghost frames: seq<Frame>, ghost rest: Bytes)
    ensures Splits(input.data, frames, rest)
    ensures output == Payloads(frames) + Truncated(rest, |Payloads(frames)|) && |output| <= MAX_TOTAL_LOG_SIZE
    ensures failed <==> Fails(input, rest, |Payloads(frames)|)
  {
    output, frames := [], [];
    var reader := input.data;
    var totalBytesRead := 0;
    assert [] + reader == reader;
    while true
      invariant Progress(input.data, frames, reader, output) && totalBytesRead == |output|
      decreases |reader|
    {
      rest := reader;
      if |reader| < 8 {
        failed := input.fails;
        return;
      }
      var frameLen := FrameLength(reader);
      if frameLen == 0 {
        ProgressOn(input.data, frames, reader, output);
        assert output + reader[8..8] == output;
        frames := frames + [FirstFrame(reader)];
        reader := reader[8..];
        continue;
      }
      if frameLen > MAX_LOG_FRAME_SIZE {
        failed := true;
        return;
      }
      if totalBytesRead + frameLen > MAX_TOTAL_LOG_SIZE {
        failed := false;
        return;
      }
      if |reader| - 8 < frameLen {
        output := output + reader[8..];
        failed := input.fails;
        return;
      }
      ProgressOn(input.data, frames, reader, output);
      frames := frames + [FirstFrame(reader)];
      output := output + reader[8..8 + frameLen];
      reader := reader[8 + frameLen..];
      totalBytesRead := totalBytesRead + frameLen;
    }
  }

  /** A stream that is not multiplexed is copied up to the limit; a failure behind the
      limit goes unnoticed. */
  method DecodeLogStream(input: Input, multiplexed: bool) returns (output: Bytes, failed: bool)
    ensures |output| <= MAX_TOTAL_LOG_SIZE
    ensures !multiplexed ==> output <= input.data && (|output| < MAX_TOTAL_LOG_SIZE ==> output == input.data)
    ensures !multiplexed ==> (failed <==> input.fails && |input.data| < MAX_TOTAL_LOG_SIZE)
    ensures multiplexed ==> exists frames, rest ::
              && Splits(input.data, frames, rest) && output == Payloads(frames) + Truncated(rest, |Payloads(frames)|)
              && (failed <==> Fails(input, rest, |Payloads(frames)|))
  {
    if !multiplexed {
      if |input.data| < MAX_TOTAL_LOG_SIZE {
        return input.data, input.fails;
      }
      return input.data[..MAX_TOTAL_LOG_SIZE], false;
    }
    ghost var frames, rest;
    output, failed, frames, rest := DecodeMultiplexed(input);
  }

  predicate DetectMultiplexed(data: Bytes) {
    && |data| >= 8
    && (data[0] == 1 || data[0] == 2)
    && data[1] == 0 && data[2] == 0 && data[3] == 0
    && FrameLength(data) <= MAX_LOG_FRAME_SIZE
  }

  // ------------------------------------------------------------------- round trips

  /** The only split of an encoded list within the limits is the list itself, so decoding
      gives back the concatenation of its payloads, without an error unless the reader
      fails. */
  lemma {:induction false} EncodedSplits(frames: seq<Frame>, fails: bool, taken: seq<Frame>, rest: Bytes)
    requires Accepted(frames) && Splits(EncodeAll(frames), taken, rest)
    ensures taken == frames && rest == []
    ensures Payloads(taken) + Truncated(rest, |Payloads(taken)|) == Payloads(frames)
    ensures Fails(Input(EncodeAll(frames), fails), rest, |Payloads(taken)|) <==> fails
  {
    assert EncodeAll(frames) + [] == EncodeAll(frames);
    SplitIsUnique(EncodeAll(frames), frames, [], taken, rest);
    assert Payloads(frames) + [] == Payloads(frames);
  }

  /** Encode, then decode. */
  method RoundTrip(frames: seq<Frame>) returns (output: Bytes, failed: bool)
    requires Accepted(frames)
    ensures output == Payloads(frames) && !failed
  {
    ghost var taken, rest;
    output, failed, taken, rest := DecodeMultiplexed(Input(EncodeAll(frames), false));
    EncodedSplits(frames, false, taken, rest);
  }

  /** Every payload whose length fits the header can be framed, and is read back. */
  lemma {:induction false} FramedIsReadBack(stream: Bytes, payload: Bytes, rest: Bytes)
    requires |stream| == 4 && |payload| < 0x1_0000_0000
    ensures var data := Encode(Framed(stream, payload)) + rest;
      |data| >= 8 + FrameLength(data) && FirstFrame(data).payload == payload
  {
    FirstEncoded(Framed(stream, payload), rest);
  }

  /** And nothing else is: a stream that is recognised begins with the header of such a frame. */
  lemma {:induction false} DetectedIsDocker(data: Bytes)
    ensures DetectMultiplexed(data) <==>
            |data| >= 8 && data[..4] in {[1, 0, 0, 0], [2, 0, 0, 0]} && Uint32(data[4..8]) <= MAX_LOG_FRAME_SIZE
  {
    if |data| >= 8 {
      assert data[..4] == [data[0], data[1], data[2], data[3]];
    }
  }

  /** Docker's own frames: standard output or error, the reserved bytes zero. */
  predicate FromDocker(frame: Frame) {
    Encodable(frame) && (frame.stream == [1, 0, 0, 0] || frame.stream == [2, 0, 0, 0])
  }

  /** A stream of Docker's frames that begins with one of an allowed size is recognised
      without its content type. */
  lemma {:induction false} DockerIsDetected(frame: Frame, rest: Bytes)
    requires FromDocker(frame)
    ensures DetectMultiplexed(Encode(frame) + rest) <==> |frame.payload| <= MAX_LOG_FRAME_SIZE
  {
    FirstEncoded(frame, rest);
    var data := Encode(frame) + rest;
    assert data[..4] == frame.stream;
    assert data[0] == data[..4][0] && data[1] == data[..4][1] && data[2] == data[..4][2] && data[3] == data[..4][3];
  }
}
