/** grpc-web frames: one flag byte, a big-endian u32 length, the payload. */
module Framing {
  import opened Bytes

  const HEADER_LEN: nat := 5
  const COMPRESSED_FLAG: nat := 0x01
  const TRAILER_FLAG: nat := 0x80

  datatype Frame = Frame(flags: byte, payload: Bytes) {
    /** Bit 0x80 of the flag byte. */
    predicate IsTrailer() {
      flags as int / TRAILER_FLAG % 2 == 1
    }

    /** Bit 0x01 of the flag byte. */
    predicate IsCompressed() {
      flags as int / COMPRESSED_FLAG % 2 == 1
    }
  }

  /** `struct.pack(">BI", ...)` refuses a length of 2^32 or more. */
  predicate Packable(f: Frame) {
    |f.payload| < U32_LIMIT
  }

  function EncodeFrame(f: Frame): (r: Bytes)
    ensures |r| == HEADER_LEN + |f.payload|
  {
    [f.flags] + U32Be(|f.payload|) + f.payload
  }

  /** The bytes of one frame: flags, length of the payload with the most significant byte first, payload. */
  predicate OnTheWire(w: Bytes, flags: byte, payload: Bytes) {
    && |w| == 5 + |payload| && w[0] == flags && w[5..] == payload
    && |payload| == Horner(w[1], w[2], w[3], w[4])
  }

  /** What is encoded, and all that is taken for a frame, has this form. */
  lemma FrameOnTheWire(f: Frame, w: Bytes)
    ensures OnTheWire(w, f.flags, f.payload) <==> Packable(f) && w == EncodeFrame(f)
  {
    U32BeDigits(|f.payload|, U32Be(|f.payload|));
    if |w| >= 5 && w[0] == f.flags && w[5..] == f.payload {
      U32BeDigits(|f.payload|, w[1..5]);
      U32BeOnto(w[1..5]);
      assert w == [w[0]] + w[1..5] + w[5..];
    }
  }

  /**
   A buffer begins with a frame exactly if some part of it from its start has the form of one, and there
   is only one such part.
   */
  lemma FrontOnTheWire(data: Bytes, n: nat, flags: byte, payload: Bytes)
    ensures n <= |data| && OnTheWire(data[..n], flags, payload) <==>
              HasFrame(data) && n == FrameEnd(data) && FirstFrame(data) == Frame(flags, payload)
  {
    if n <= |data| && OnTheWire(data[..n], flags, payload) {
      FrameOnTheWire(Frame(flags, payload), data[..n]);
      FrontFrame(Frame(flags, payload), data[n..]);
      assert data == data[..n] + data[n..];
    }
    if HasFrame(data) {
      FrontBytes(data);
      FrameOnTheWire(FirstFrame(data), data[..FrameEnd(data)]);
    }
  }

  /** Bit 0 marks a compressed frame and bit 7 a trailer; the other bits mean nothing. */
  lemma FlagBits(f: Frame)
    ensures f.IsCompressed() <==> f.flags % 2 == 1
    ensures f.IsTrailer() <==> f.flags >= 128
  {
  }

  function EncodeFrames(frames: seq<Frame>): Bytes {
    if frames == [] then [] else EncodeFrame(frames[0]) + EncodeFrames(frames[1..])
  }

  /** Where the first frame of a buffer ends according to its header. */
  function FrameEnd(data: Bytes): (end: nat)
    requires |data| >= HEADER_LEN
    ensures end >= HEADER_LEN
  {
    HEADER_LEN + FromU32Be(data[1..5])
  }

  /** A complete frame is at the front of the buffer. */
  predicate HasFrame(data: Bytes) {
    |data| >= HEADER_LEN && FrameEnd(data) <= |data|
  }

  function FirstFrame(data: Bytes): Frame
    requires HasFrame(data)
  {
    Frame(data[0], data[HEADER_LEN..FrameEnd(data)])
  }

  /** The complete frames at the front of a buffer, and what is left. */
  datatype Parse = Parse(frames: seq<Frame>, rest: Bytes)

  function ParseFrames(data: Bytes): Parse
    decreases |data|
  {
    if !HasFrame(data) then Parse([], data)
    else
      var tail := ParseFrames(data[FrameEnd(data)..]);
      Parse([FirstFrame(data)] + tail.frames, tail.rest)
  }

  // ---- the parse is an inverse of the encoding ------------------------------------------

  /** A frame in front of anything is found, and nothing else is consumed. */
  lemma FrontFrame(f: Frame, data: Bytes)
    requires Packable(f)
    ensures var d := EncodeFrame(f) + data;
            && HasFrame(d) && FrameEnd(d) == HEADER_LEN + |f.payload|
            && FirstFrame(d) == f && d[FrameEnd(d)..] == data
  {
    var e, d := EncodeFrame(f), EncodeFrame(f) + data;
    assert e[1..5] == U32Be(|f.payload|);
    assert d[1..5] == e[1..5];
    U32BeRoundTrip(|f.payload|);
    assert d[HEADER_LEN..|e|] == e[HEADER_LEN..|e|] == f.payload;
    assert d[|e|..] == data;
  }

  /** Conversely, the front of a buffer with a complete frame is that frame's encoding. */
  lemma FrontBytes(data: Bytes)
    requires HasFrame(data)
    ensures Packable(FirstFrame(data)) && EncodeFrame(FirstFrame(data)) == data[..FrameEnd(data)]
  {
    var end := FrameEnd(data);
    U32BeOnto(data[1..5]);
    assert data[..end] == [data[0]] + data[1..5] + data[5..end];
  }

  /** Frames followed by anything without a complete frame parse to exactly those frames. */
  lemma {:induction false} ParseEncoded(frames: seq<Frame>, rest: Bytes)
    requires forall f | f in frames :: Packable(f)
    requires !HasFrame(rest)
    ensures ParseFrames(EncodeFrames(frames) + rest) == Parse(frames, rest)
  {
    if frames == [] {
      assert [] + rest == rest;
    } else {
      var tail := EncodeFrames(frames[1..]) + rest;
      assert EncodeFrames(frames) + rest == EncodeFrame(frames[0]) + tail;
      FrontFrame(frames[0], tail);
      ParseEncoded(frames[1..], rest);
      assert frames == [frames[0]] + frames[1..];
    }
  }

  lemma EncodeCons(f: Frame, fs: seq<Frame>)
    ensures EncodeFrames([f] + fs) == EncodeFrame(f) + EncodeFrames(fs)
  {
    assert ([f] + fs)[1..] == fs;
  }

  /** Re-encoding what was parsed rebuilds the buffer byte for byte. */
  lemma {:induction false} EncodeParsed(data: Bytes)
    ensures var p := ParseFrames(data);
            && EncodeFrames(p.frames) + p.rest == data
            && !HasFrame(p.rest)
            && forall f | f in p.frames :: Packable(f)
    decreases |data|
  {
    if HasFrame(data) {
      var end := FrameEnd(data);
      var tail := ParseFrames(data[end..]);
      FrontBytes(data);
      EncodeParsed(data[end..]);
      EncodeCons(FirstFrame(data), tail.frames);
      Rejoin(data, end, EncodeFrames(tail.frames), tail.rest);
    } else {
      assert [] + data == data;
    }
  }

  lemma Rejoin(data: Bytes, end: nat, x: Bytes, rest: Bytes)
    requires end <= |data| && x + rest == data[end..]
    ensures data[..end] + x + rest == data
  {
    assert data[..end] + x + rest == data[..end] + (x + rest);
  }

  /** So a buffer has one parse only. */
  lemma ParseUnique(frames: seq<Frame>, rest: Bytes, data: Bytes)
    requires forall f | f in frames :: Packable(f)
    ensures data == EncodeFrames(frames) + rest && !HasFrame(rest) <==> ParseFrames(data) == Parse(frames, rest)
  {
    EncodeParsed(data);
    if data == EncodeFrames(frames) + rest && !HasFrame(rest) {
      ParseEncoded(frames, rest);
    }
  }

  lemma {:induction false} EncodeAppend(a: seq<Frame>, b: seq<Frame>)
    ensures EncodeFrames(a + b) == EncodeFrames(a) + EncodeFrames(b)
  {
    if a == [] {
      assert a + b == b;
    } else {
      assert (a + b)[0] == a[0] && (a + b)[1..] == a[1..] + b;
      EncodeAppend(a[1..], b);
    }
  }

  // ---- the two decoders -------------------------------------------------------------------

  datatype Truncation = NotTruncated | TruncatedHeader | TruncatedBody

  function TruncationOf(rest: Bytes): Truncation {
    if rest == [] then NotTruncated else if |rest| < HEADER_LEN then TruncatedHeader else TruncatedBody
  }

  /** The bytes up to an offset are exactly these frames. */
  ghost predicate Read(data: Bytes, off: nat, frames: seq<Frame>) {
    off <= |data| && data[..off] == EncodeFrames(frames) && forall f | f in frames :: Packable(f)
  }

  /** The frame at an offset, if it is complete, is one more frame that was read. */
  lemma ReadNext(data: Bytes, off: nat, frames: seq<Frame>)
    requires Read(data, off, frames) && off + HEADER_LEN <= |data|
    ensures var end := off + HEADER_LEN + FromU32Be(data[off + 1..off + 5]);
            && (HasFrame(data[off..]) <==> end <= |data|)
            && (end <= |data| ==> Read(data, end, frames + [Frame(data[off], data[off + HEADER_LEN..end])]))
  {
    var d, end := data[off..], off + HEADER_LEN + FromU32Be(data[off + 1..off + 5]);
    assert d[1..5] == data[off + 1..off + 5];
    if end <= |data| {
      var f := Frame(data[off], data[off + HEADER_LEN..end]);
      assert d[HEADER_LEN..end - off] == f.payload;
      FrontBytes(d);
      EncodeAppend(frames, [f]);
      OneFrame(f);
      assert data[..end] == data[..off] + d[..end - off];
    }
  }

  lemma OneFrame(f: Frame)
    ensures EncodeFrames([f]) == EncodeFrame(f)
  {
    EncodeCons(f, []);
    assert [f] + [] == [f] && EncodeFrame(f) + EncodeFrames([]) == EncodeFrame(f);
  }

  /** Reading stops where no frame is complete. */
  lemma ReadAll(data: Bytes, off: nat, frames: seq<Frame>)
    requires Read(data, off, frames) && !HasFrame(data[off..])
    ensures ParseFrames(data) == Parse(frames, data[off..])
    ensures EncodeFrames(frames) <= data && forall f | f in frames :: OnTheWire(EncodeFrame(f), f.flags, f.payload)
  {
    forall f | f in frames ensures OnTheWire(EncodeFrame(f), f.flags, f.payload) {
      FrameOnTheWire(f, EncodeFrame(f));
    }
    assert data == data[..off] + data[off..];
    ParseEncoded(frames, data[off..]);
  }

  /** All frames of a buffer; it must end at a frame boundary. */
  method IterFrames(data: Bytes) returns (frames: seq<Frame>, error: Truncation)
    ensures frames == ParseFrames(data).frames
    ensures error == TruncationOf(ParseFrames(data).rest)
    ensures EncodeFrames(frames) <= data && forall f | f in frames :: OnTheWire(EncodeFrame(f), f.flags, f.payload)
  {
    frames := [];
    var off := 0;
    while off < |data|
      invariant Read(data, off, frames)
    {
      if off + HEADER_LEN > |data| {
        ReadAll(data, off, frames);
        return frames, TruncatedHeader;
      }
      ReadNext(data, off, frames);
      var length := FromU32Be(data[off + 1..off + 5]);
      var start := off + HEADER_LEN;
      var end := start + length;
      if end > |data| {
        ReadAll(data, off, frames);
        return frames, TruncatedBody;
      }
      frames := frames + [Frame(data[off], data[start..end])];
      off := end;
    }
    ReadAll(data, off, frames);
    return frames, NotTruncated;
  }

  lemma NothingOnTheWire(data: Bytes)
    requires !HasFrame(data)
    ensures forall n, f, p | 0 <= n <= |data| :: !OnTheWire(data[..n], f, p)
  {
    forall n, f, p | 0 <= n <= |data| ensures !OnTheWire(data[..n], f, p) {
      FrontOnTheWire(data, n, f, p);
    }
  }

  /** The bytes received and not yet consumed. */
  class ByteBuffer {
    var bytes: Bytes

    constructor ()
      ensures bytes == []
    {
      bytes := [];
    }

    method Extend(chunk: Bytes)
      modifies this
      ensures bytes == old(bytes) + chunk
    {
      bytes := bytes + chunk;
    }

    /** Remove and return the first complete frame, or leave the buffer alone. */
    method TakeFrame() returns (frame: Option<Frame>)
      modifies this
      ensures frame.Some? <==> HasFrame(old(bytes))
      ensures frame.Some? ==> EncodeFrame(frame.value) + bytes == old(bytes) && Packable(frame.value)
      ensures frame.Some? ==> frame.value == FirstFrame(old(bytes)) && |bytes| < |old(bytes)|
      ensures frame.Some? ==>
                var n := |old(bytes)| - |bytes|;
                OnTheWire(old(bytes)[..n], frame.value.flags, frame.value.payload) && bytes == old(bytes)[n..]
      ensures frame.None? ==> bytes == old(bytes)
      ensures frame.None? ==> forall n, f, p | 0 <= n <= |bytes| :: !OnTheWire(bytes[..n], f, p)
    {
      var n := |bytes|;
      if n < HEADER_LEN {
        NothingOnTheWire(bytes);
        return None;
      }
      var end := HEADER_LEN + FromU32Be(bytes[1..5]);
      if end > n {
        NothingOnTheWire(bytes);
        return None;
      }
      FrontBytes(bytes);
      FrameOnTheWire(FirstFrame(bytes), bytes[..end]);
      frame := Some(Frame(bytes[0], bytes[HEADER_LEN..end]));
      assert bytes == bytes[..end] + bytes[end..];
      bytes := bytes[end..];
    }
  }

  // ---- request bodies of AddArtifacts -----------------------------------------------------

  function Messages(payloads: seq<Bytes>): seq<Frame> {
    seq(|payloads|, i requires 0 <= i < |payloads| => Frame(0, payloads[i]))
  }

  /** Frame one message; None when the length does not fit its field. */
  function EncodeMessage(payload: Bytes, flags: int): (r: Option<Bytes>)
    ensures r.Some? <==> |payload| < U32_LIMIT
    ensures r.Some? ==> OnTheWire(r.value, flags % 256, payload)
    ensures r.Some? ==>
              && HasFrame(r.value) && FirstFrame(r.value) == Frame(flags % 256, payload)
              && FrameEnd(r.value) == |r.value|
  {
    if |payload| < U32_LIMIT then
      var f := Frame(flags % 256, payload);
      FrontFrame(f, []);
      FrameOnTheWire(f, EncodeFrame(f));
      assert EncodeFrame(f) + [] == EncodeFrame(f);
      Some(EncodeFrame(f))
    else None
  }

  /** Concatenate one frame per request: client streaming over one unary body. */
  method EncodeRequests(payloads: seq<Bytes>) returns (body: Option<Bytes>)
    ensures body.Some? <==> forall p | p in payloads :: |p| < U32_LIMIT
    ensures body.Some? ==> body.value == EncodeFrames(Messages(payloads))
  {
    var out: Bytes := [];
    for i := 0 to |payloads|
      invariant out == EncodeFrames(Messages(payloads[..i]))
      invariant forall p | p in payloads[..i] :: |p| < U32_LIMIT
    {
      var f := EncodeMessage(payloads[i], 0);
      if f.None? {
        assert payloads[i] in payloads;
        return None;
      }
      assert payloads[..i + 1] == payloads[..i] + [payloads[i]];
      assert Messages(payloads[..i + 1]) == Messages(payloads[..i]) + [Frame(0, payloads[i])];
      EncodeAppend(Messages(payloads[..i]), [Frame(0, payloads[i])]);
      EncodeCons(Frame(0, payloads[i]), []);
      out := out + f.value;
    }
    assert payloads[..|payloads|] == payloads;
    return Some(out);
  }

  /** The server decodes such a body to exactly the list of requests, in order. */
  lemma RequestBodyRoundTrip(payloads: seq<Bytes>)
    requires forall p | p in payloads :: |p| < U32_LIMIT
    ensures ParseFrames(EncodeFrames(Messages(payloads))) == Parse(Messages(payloads), [])
    ensures forall i | 0 <= i < |payloads| ::
              var f := Messages(payloads)[i]; f.payload == payloads[i] && !f.IsTrailer() && !f.IsCompressed()
  {
    var ms := Messages(payloads);
    forall f | f in ms ensures Packable(f) {
      var i :| 0 <= i < |ms| && f == ms[i];
      assert payloads[i] in payloads;
    }
    ParseEncoded(ms, []);
    assert EncodeFrames(ms) + [] == EncodeFrames(ms);
  }

  // ---- incomplete input ----------------------------------------------------------------------

  /** A proper prefix of one frame holds no complete frame. */
  lemma CutFrame(f: Frame, k: nat)
    requires Packable(f) && k < |EncodeFrame(f)|
    ensures !HasFrame(EncodeFrame(f)[..k])
  {
    var e, d := EncodeFrame(f), EncodeFrame(f)[..k];
    if k >= HEADER_LEN {
      assert e[1..5] == U32Be(|f.payload|);
      assert d[1..5] == e[1..5];
      U32BeRoundTrip(|f.payload|);
    }
  }

  lemma CutBehind(a: Bytes, b: Bytes, k: nat)
    requires |a| <= k <= |a| + |b|
    ensures (a + b)[..k] == a + b[..k - |a|]
  {
  }

  lemma TakeCons(frames: seq<Frame>, i: nat)
    requires i < |frames|
    ensures frames[..i + 1] == [frames[0]] + frames[1..][..i]
    ensures EncodeFrames(frames[..i + 1]) == EncodeFrame(frames[0]) + EncodeFrames(frames[1..][..i])
  {
    assert frames[..i + 1] == [frames[0]] + frames[1..][..i];
    EncodeCons(frames[0], frames[1..][..i]);
  }

  /** Cutting a sequence of frames: the whole frames before the cut, and nothing else, are found. */
  lemma {:induction false} CutFrames(frames: seq<Frame>, k: nat) returns (j: nat)
    requires forall f | f in frames :: Packable(f)
    requires k <= |EncodeFrames(frames)|
    ensures j <= |frames| && ParseFrames(EncodeFrames(frames)[..k]).frames == frames[..j]
    ensures |EncodeFrames(frames[..j])| <= k
    ensures j < |frames| ==> k < |EncodeFrames(frames[..j + 1])|
  {
    if frames == [] {
      j := 0;
      assert EncodeFrames(frames)[..k] == [];
    } else {
      var head, rest := EncodeFrame(frames[0]), EncodeFrames(frames[1..]);
      if k < |head| {
        j := 0;
        assert (head + rest)[..k] == head[..k];
        CutFrame(frames[0], k);
        EncodeCons(frames[0], []);
        assert frames[..1] == [frames[0]] + [];
      } else {
        var i := CutFrames(frames[1..], k - |head|);
        j := i + 1;
        CutBehind(head, rest, k);
        FrontFrame(frames[0], rest[..k - |head|]);
        TakeCons(frames, i);
        if j < |frames| {
          TakeCons(frames, i + 1);
        }
      }
    }
  }

  /** A complete frame stays where it is when more bytes arrive. */
  lemma FrameStays(a: Bytes, b: Bytes)
    requires HasFrame(a)
    ensures HasFrame(a + b) && FrameEnd(a + b) == FrameEnd(a) && FirstFrame(a + b) == FirstFrame(a)
    ensures (a + b)[FrameEnd(a)..] == a[FrameEnd(a)..] + b
  {
    assert (a + b)[1..5] == a[1..5];
    assert (a + b)[HEADER_LEN..FrameEnd(a)] == a[HEADER_LEN..FrameEnd(a)];
  }

  function Before(frames: seq<Frame>, p: Parse): Parse {
    Parse(frames + p.frames, p.rest)
  }

  lemma BeforeTwice(f: seq<Frame>, g: seq<Frame>, p: Parse)
    ensures Before(f, Before(g, p)) == Before(f + g, p)
  {
  }

  /** Parsing a buffer and then more bytes is parsing what was left of it with the bytes behind. */
  lemma {:induction false} ParseMore(a: Bytes, b: Bytes)
    ensures ParseFrames(a + b) == Before(ParseFrames(a).frames, ParseFrames(ParseFrames(a).rest + b))
    decreases |a|
  {
    if HasFrame(a) {
      FrameStays(a, b);
      var rest := a[FrameEnd(a)..];
      ParseMore(rest, b);
      BeforeTwice([FirstFrame(a)], ParseFrames(rest).frames, ParseFrames(ParseFrames(rest).rest + b));
    } else {
      assert [] + ParseFrames(a + b).frames == ParseFrames(a + b).frames;
    }
  }
}
