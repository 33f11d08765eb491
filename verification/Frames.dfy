/** Length-prefixed message frames: what the writer puts on a socket and what the
    read loop makes of a byte stream. */
module Frames {
  import opened Primitives
  import opened Ordering

  const MAX_FRAME: nat := 8 * 1024 * 1024

  // ------------------------------------------------------------ u32 headers --

  function ToBigEndian(n: nat): (r: Bytes)
    requires n < U32_RANGE
    ensures |r| == 4
  {
    [n / 0x100_0000, n / 0x1_0000 % 0x100, n / 0x100 % 0x100, n % 0x100]
  }

  function FromBigEndian(b: Bytes): (n: nat)
    requires |b| == 4
    ensures n < U32_RANGE
  {
    var (b0: nat, b1: nat, b2: nat, b3: nat) := (b[0], b[1], b[2], b[3]);
    b0 * 0x100_0000 + b1 * 0x1_0000 + b2 * 0x100 + b3
  }

  lemma HeaderRoundTrip(n: nat)
    requires n < U32_RANGE
    ensures FromBigEndian(ToBigEndian(n)) == n
  {
    var a, b := n / 0x100, n / 0x1_0000;
    assert n == a * 0x100 + n % 0x100;
    assert a / 0x100 == b && a == b * 0x100 + a % 0x100;
    assert b / 0x100 == n / 0x100_0000 && b == b / 0x100 * 0x100 + b % 0x100;
  }

  lemma LexStep(a: Bytes, b: Bytes)
    requires |a| == |b| > 0
    ensures LexLeq(a, b) <==> a[0] < b[0] || (a[0] == b[0] && LexLeq(a[1..], b[1..]))
  {}

  /** Most significant byte first: headers are ordered as the lengths they encode. */
  lemma HeaderIsBigEndian(m: nat, n: nat)
    requires m < U32_RANGE && n < U32_RANGE
    ensures LexLeq(ToBigEndian(m), ToBigEndian(n)) <==> m <= n
  {
    var a, b := ToBigEndian(m), ToBigEndian(n);
    HeaderRoundTrip(m);
    HeaderRoundTrip(n);
    LexStep(a, b);
    LexStep(a[1..], b[1..]);
    LexStep(a[2..], b[2..]);
    LexStep(a[3..], b[3..]);
    assert a[1..][1..] == a[2..] && b[1..][1..] == b[2..] && a[2..][1..] == a[3..] && b[2..][1..] == b[3..];
  }

  // ---------------------------------------------------------------- writing --

  /** `len as u32` keeps the low 32 bits. */
  function Frame<M(!new)>(c: Codec<M>, m: M): Bytes {
    ToBigEndian(|c.encode(m)| % U32_RANGE) + c.encode(m)
  }

  function Frames<M(!new)>(c: Codec<M>, ms: seq<M>): Bytes
    decreases |ms|
  {
    if ms == [] then [] else Frame(c, ms[0]) + Frames(c, ms[1..])
  }

  /** The sending half of a connection. */
  class Writer<M(!new)> {
    const codec: Codec<M>
    var sent: Bytes

    constructor (codec: Codec<M>)
      ensures this.codec == codec && sent == []
    {
      this.codec := codec;
      sent := [];
    }

    method WriteMessage(m: M)
      modifies this
      ensures sent == old(sent) + Frame(codec, m)
    {
      var bytes := codec.encode(m);
      var len := |bytes| % U32_RANGE;
      sent := sent + ToBigEndian(len);
      sent := sent + bytes;
      assert sent == old(sent) + Frame(codec, m);
    }

    /** The outbound task: messages leave in the order they were queued. */
    method WriteAll(queue: seq<M>)
      modifies this
      ensures sent == old(sent) + Frames(codec, queue)
    {
      var i := 0;
      assert queue[..0] == [];
      while i < |queue|
        invariant 0 <= i <= |queue|
        invariant sent == old(sent) + Frames(codec, queue[..i])
      {
        WriteMessage(queue[i]);
        FramesAppend(codec, queue[..i], queue[i]);
        assert queue[..i + 1] == queue[..i] + [queue[i]];
        i := i + 1;
      }
      assert queue[..i] == queue;
    }
  }

  lemma {:induction false} FramesAppend<M(!new)>(c: Codec<M>, ms: seq<M>, m: M)
    ensures Frames(c, ms + [m]) == Frames(c, ms) + Frame(c, m)
    decreases |ms|
  {
    if ms == [] {
      assert ms + [m] == [m] && Frames(c, [m][1..]) == [];
    } else {
      FramesAppend(c, ms[1..], m);
      assert (ms + [m])[0] == ms[0] && (ms + [m])[1..] == ms[1..] + [m];
    }
  }

  // ---------------------------------------------------------------- reading --

  datatype ReadError = ReadLengthFailed | MessageTooLarge | ReadPayloadFailed | DecodeFailed

  /** The first frame of a stream: its message and what follows it. */
  function ReadFrame<M(!new)>(c: Codec<M>, stream: Bytes): (r: Result<(M, Bytes), ReadError>)
    ensures r.Ok? ==> |r.value.1| < |stream|
  {
    if |stream| < 4 then Err(ReadLengthFailed)
    else
      var len := FromBigEndian(stream[..4]);
      if len > MAX_FRAME then Err(MessageTooLarge)
      else if |stream| < 4 + len then Err(ReadPayloadFailed)
      else
        match c.decode(stream[4..4 + len])
        case None => Err(DecodeFailed)
        case Some(m) => Ok((m, stream[4 + len..]))
  }

  /** Everything the loop emits on a stream, and the error that ends it. */
  function Parse<M(!new)>(c: Codec<M>, stream: Bytes): (seq<M>, ReadError)
    decreases |stream|
  {
    match ReadFrame(c, stream)
    case Err(e) => ([], e)
    case Ok((m, rest)) => ([m] + Parse(c, rest).0, Parse(c, rest).1)
  }

  /** The read loop. */
  method ReadMessages<M(!new)>(c: Codec<M>, stream: Bytes) returns (emitted: seq<M>, error: ReadError)
    ensures emitted == Parse(c, stream).0 && error == Parse(c, stream).1
  {
    emitted := [];
    var rest := stream;
    while true
      invariant Parse(c, stream).0 == emitted + Parse(c, rest).0
      invariant Parse(c, stream).1 == Parse(c, rest).1
      decreases |rest|
    {
      if |rest| < 4 {
        return emitted, ReadLengthFailed;
      }
      var len := FromBigEndian(rest[..4]);
      if len > MAX_FRAME {
        return emitted, MessageTooLarge;
      }
      if |rest| < 4 + len {
        return emitted, ReadPayloadFailed;
      }
      var decoded := c.decode(rest[4..4 + len]);
      if decoded.None? {
        return emitted, DecodeFailed;
      }
      emitted := emitted + [decoded.value];
      rest := rest[4 + len..];
    }
  }

  // -------------------------------------------------------------- round trip --

  predicate Fits<M(!new)>(c: Codec<M>, m: M) {
    |c.encode(m)| <= MAX_FRAME
  }

  /** The header of a written frame tells the length of its payload. */
  lemma FrameLayout<M(!new)>(c: Codec<M>, m: M, tail: Bytes)
    requires |c.encode(m)| < U32_RANGE
    ensures var stream := Frame(c, m) + tail;
            && |stream| == 4 + |c.encode(m)| + |tail|
            && FromBigEndian(stream[..4]) == |c.encode(m)|
            && stream[4..4 + |c.encode(m)|] == c.encode(m)
            && stream[4 + |c.encode(m)|..] == tail
  {
    var n := |c.encode(m)|;
    HeaderRoundTrip(n);
    assert n % U32_RANGE == n;
    assert (Frame(c, m) + tail)[..4] == ToBigEndian(n);
  }

  lemma ReadsWrittenFrame<M(!new)>(c: Codec<M>, m: M, tail: Bytes)
    requires c.Lossless() && Fits(c, m)
    ensures ReadFrame(c, Frame(c, m) + tail) == Ok((m, tail))
  {
    FrameLayout(c, m, tail);
  }

  /** What reading an oversized frame ends with. An encoding of 4 GiB or more has its
      length truncated by the header, and the reader sees a proper prefix of it. */
  function OversizedError<M(!new)>(c: Codec<M>, m: M): ReadError {
    if |c.encode(m)| % U32_RANGE > MAX_FRAME then MessageTooLarge else DecodeFailed
  }

  lemma RefusesOversizedFrame<M(!new)>(c: Codec<M>, m: M, tail: Bytes)
    requires !Fits(c, m) && (c.PrefixFree() || |c.encode(m)| < U32_RANGE)
    ensures ReadFrame(c, Frame(c, m) + tail) == Err(OversizedError(c, m))
  {
    var enc := c.encode(m);
    var n := |enc| % U32_RANGE;
    if |enc| < U32_RANGE {
      FrameLayout(c, m, tail);
    } else {
      var stream := Frame(c, m) + tail;
      HeaderRoundTrip(n);
      assert stream[..4] == ToBigEndian(n);
      assert stream[4..4 + n] == enc[..n];
    }
  }

  /** The messages before the first oversized one. */
  function Deliverable<M(!new)>(c: Codec<M>, ms: seq<M>): seq<M>
    decreases |ms|
  {
    if ms == [] || !Fits(c, ms[0]) then [] else [ms[0]] + Deliverable(c, ms[1..])
  }

  /** The error that ends reading a written list. */
  function ClosingError<M(!new)>(c: Codec<M>, ms: seq<M>): ReadError
    decreases |ms|
  {
    if ms == [] then ReadLengthFailed
    else if Fits(c, ms[0]) then ClosingError(c, ms[1..])
    else OversizedError(c, ms[0])
  }

  /** The header tells the reader enough: encodings below 4 GiB, or a codec whose
      encodings have no decodable prefix. */
  ghost predicate Readable<M(!new)>(c: Codec<M>, ms: seq<M>) {
    c.Lossless() && (c.PrefixFree() || forall m :: m in ms ==> |c.encode(m)| < U32_RANGE)
  }

  /** The loop emits exactly the messages before the first oversized one, and returns
      the error that says why it stopped. */
  lemma {:induction false} ParsesWrittenFrames<M(!new)>(c: Codec<M>, ms: seq<M>)
    requires Readable(c, ms)
    ensures Parse(c, Frames(c, ms)) == (Deliverable(c, ms), ClosingError(c, ms))
    decreases |ms|
  {
    if ms != [] {
      var tail := Frames(c, ms[1..]);
      assert ms[0] in ms && ms == [ms[0]] + ms[1..];
      if Fits(c, ms[0]) {
        ReadsWrittenFrame(c, ms[0], tail);
        ParsesWrittenFrames(c, ms[1..]);
      } else {
        RefusesOversizedFrame(c, ms[0], tail);
      }
    }
  }

  lemma {:induction false} DeliversAllExactly<M(!new)>(c: Codec<M>, ms: seq<M>)
    ensures Deliverable(c, ms) == ms <==> forall m :: m in ms ==> Fits(c, m)
    decreases |ms|
  {
    if ms != [] {
      DeliversAllExactly(c, ms[1..]);
      assert ms == [ms[0]] + ms[1..];
    }
  }

  /** Round trip: the read loop over the concatenated frames emits exactly the list
      written, if and only if every encoding is at most 8 MiB. */
  lemma FramesRoundTripExactly<M(!new)>(c: Codec<M>, ms: seq<M>)
    requires Readable(c, ms)
    ensures Parse(c, Frames(c, ms)).0 == ms <==> forall m :: m in ms ==> |c.encode(m)| <= 8_388_608
  {
    ParsesWrittenFrames(c, ms);
    DeliversAllExactly(c, ms);
  }

  // ------------------------------------------------------------- cut streams --

  lemma ReadFrameExtends<M(!new)>(c: Codec<M>, stream: Bytes, k: nat)
    requires k <= |stream| && ReadFrame(c, stream[..k]).Ok?
    ensures ReadFrame(c, stream).Ok?
    ensures ReadFrame(c, stream).value.0 == ReadFrame(c, stream[..k]).value.0
    ensures var rest := ReadFrame(c, stream).value.1;
            var cut := ReadFrame(c, stream[..k]).value.1;
            |cut| <= |rest| && cut == rest[..|cut|]
  {
    var len := FromBigEndian(stream[..k][..4]);
    assert stream[..k][..4] == stream[..4];
    assert stream[..k][4..4 + len] == stream[4..4 + len];
  }

  /** On any byte stream at all, cutting it short only drops messages off the end of
      what is emitted. */
  lemma {:induction false} CutEmitsPrefix<M(!new)>(c: Codec<M>, stream: Bytes, k: nat)
    requires k <= |stream|
    ensures Parse(c, stream[..k]).0 <= Parse(c, stream).0
    decreases |stream|
  {
    if ReadFrame(c, stream[..k]).Ok? {
      ReadFrameExtends(c, stream, k);
      var rest := ReadFrame(c, stream).value.1;
      CutEmitsPrefix(c, rest, |ReadFrame(c, stream[..k]).value.1|);
    }
  }

  lemma CutFrameEmitsNothing<M(!new)>(c: Codec<M>, m: M, tail: Bytes, k: nat)
    requires Fits(c, m) && k < |Frame(c, m)|
    ensures ReadFrame(c, (Frame(c, m) + tail)[..k]) == Err(if k < 4 then ReadLengthFailed else ReadPayloadFailed)
  {
    var cut := (Frame(c, m) + tail)[..k];
    FrameLayout(c, m, tail);
    if k >= 4 { assert cut[..4] == (Frame(c, m) + tail)[..4]; }
  }

  /** Over a cut stream of frames the loop emits exactly the messages whose frames
      arrived whole: never a partial one, never one fewer. */
  lemma {:induction false} CutEmitsWholeFrames<M(!new)>(c: Codec<M>, ms: seq<M>, k: nat) returns (j: nat)
    requires c.Lossless() && (forall m :: m in ms ==> Fits(c, m)) && k <= |Frames(c, ms)|
    ensures j <= |ms| && Parse(c, Frames(c, ms)[..k]).0 == ms[..j]
    ensures |Frames(c, ms[..j])| <= k && (j < |ms| ==> k < |Frames(c, ms[..j + 1])|)
    ensures Parse(c, Frames(c, ms)[..k]).1 in {ReadLengthFailed, ReadPayloadFailed}
    decreases |ms|
  {
    j := 0;
    if ms != [] {
      var first, tail := Frame(c, ms[0]), Frames(c, ms[1..]);
      assert ms[0] in ms;
      if k < |first| {
        CutFrameEmitsNothing(c, ms[0], tail, k);
        assert ms[..1] == [ms[0]] && Frames(c, [ms[0]][1..]) == [];
      } else {
        assert (first + tail)[..k] == first + tail[..k - |first|];
        ReadsWrittenFrame(c, ms[0], tail[..k - |first|]);
        var i := CutEmitsWholeFrames(c, ms[1..], k - |first|);
        j := i + 1;
        FramesSplit(c, ms, j);
        if j < |ms| { FramesSplit(c, ms, j + 1); }
      }
    }
  }

  lemma FramesSplit<M(!new)>(c: Codec<M>, ms: seq<M>, j: nat)
    requires 1 <= j <= |ms|
    ensures ms[..j] == [ms[0]] + ms[1..][..j - 1]
    ensures Frames(c, ms[..j]) == Frame(c, ms[0]) + Frames(c, ms[1..][..j - 1])
  {
    assert ms[..j][1..] == ms[1..][..j - 1];
  }
}
