/** Turning response bytes into messages and a status, whole bodies and streams. */
module GrpcWeb {
  import opened Bytes
  import opened Framing
  import opened Trailers

  // ---- the status of a response --------------------------------------------------------

  datatype Verdict =
    | OkStatus
    | NoTrailer
    | NoStatus
    | ErrorStatus(status: string, message: string)

  /** A response is fine only if its trailer says grpc-status 0. */
  function VerdictOf(t: Option<Trailer>): Verdict {
    match t
    case None => NoTrailer
    case Some(m) =>
      if STATUS_KEY !in m then NoStatus
      else if m[STATUS_KEY] == "0" then OkStatus
      else ErrorStatus(m[STATUS_KEY], if MESSAGE_KEY in m then m[MESSAGE_KEY] else "")
  }

  // ---- one pass over frames -------------------------------------------------------------------

  datatype Stop = Going | HitCompressed | HitUndecodable

  /** The messages yielded so far, the last trailer seen, and whether decoding had to stop. */
  datatype Scan<T> = Scan(yielded: seq<T>, trailer: Option<Trailer>, stop: Stop)

  /** How a payload becomes a message; None is a payload the message class rejects. */
  type Decoder<T> = Bytes -> Option<T>

  function TakeOne<T>(u: Utf8, decode: Decoder<T>, acc: Scan<T>, f: Frame): Scan<T> {
    if acc.stop != Going then acc
    else if f.IsCompressed() then acc.(stop := HitCompressed)
    else if f.IsTrailer() then acc.(trailer := Some(TrailersOf(u, f.payload)))
    else match decode(f.payload)
         case None => acc.(stop := HitUndecodable)
         case Some(m) => acc.(yielded := acc.yielded + [m])
  }

  function TakeAll<T>(u: Utf8, decode: Decoder<T>, acc: Scan<T>, frames: seq<Frame>): Scan<T>
    decreases |frames|
  {
    if frames == [] then acc else TakeAll(u, decode, TakeOne(u, decode, acc, frames[0]), frames[1..])
  }

  lemma {:induction false} TakeAppend<T>(u: Utf8, decode: Decoder<T>, acc: Scan<T>, a: seq<Frame>, b: seq<Frame>)
    ensures TakeAll(u, decode, acc, a + b) == TakeAll(u, decode, TakeAll(u, decode, acc, a), b)
    decreases |a|
  {
    if a == [] {
      assert a + b == b;
    } else {
      assert (a + b)[0] == a[0] && (a + b)[1..] == a[1..] + b;
      TakeAppend(u, decode, TakeOne(u, decode, acc, a[0]), a[1..], b);
    }
  }

  lemma TakeSnoc<T>(u: Utf8, decode: Decoder<T>, acc: Scan<T>, a: seq<Frame>, f: Frame)
    ensures TakeAll(u, decode, acc, a + [f]) == TakeOne(u, decode, TakeAll(u, decode, acc, a), f)
  {
    TakeAppend(u, decode, acc, a, [f]);
    assert [f][1..] == [];
  }

  /** Once decoding stopped, later frames make no difference. */
  lemma {:induction false} StopAbsorbs<T>(u: Utf8, decode: Decoder<T>, acc: Scan<T>, frames: seq<Frame>)
    requires acc.stop != Going
    ensures TakeAll(u, decode, acc, frames) == acc
    decreases |frames|
  {
    if frames != [] {
      StopAbsorbs(u, decode, acc, frames[1..]);
    }
  }

  /** The one-pass reading of a byte string. */
  function ScanBytes<T>(u: Utf8, decode: Decoder<T>, data: Bytes): Scan<T> {
    TakeAll(u, decode, Scan([], None, Going), ParseFrames(data).frames)
  }

  // ---- whole bodies --------------------------------------------------------------------------

  datatype Body =
    | Decoded(messages: seq<Bytes>, trailers: Option<Trailer>)
    | CompressedBody
    | CutBody(how: Truncation)

  function Raw(p: Bytes): Option<Bytes> {
    Some(p)
  }

  function BodyOf(u: Utf8, data: Bytes): Body {
    var s := ScanBytes(u, Raw, data);
    if s.stop == HitCompressed then CompressedBody
    else if ParseFrames(data).rest != [] then CutBody(TruncationOf(ParseFrames(data).rest))
    else Decoded(s.yielded, s.trailer)
  }

  /** Decode a complete body; a compressed frame is noticed before a cut behind it. */
  method DecodeBody(u: Utf8, data: Bytes) returns (r: Body)
    ensures r == BodyOf(u, data)
  {
    var frames, error := IterFrames(data);
    var messages: seq<Bytes> := [];
    var trailers: Option<Trailer> := None;
    var i := 0;
    while i < |frames|
      invariant i <= |frames|
      invariant TakeAll(u, Raw, Scan([], None, Going), frames) ==
                  TakeAll(u, Raw, Scan(messages, trailers, Going), frames[i..])
    {
      var f := frames[i];
      assert frames[i..][1..] == frames[i + 1..];
      if f.IsCompressed() {
        StopAbsorbs(u, Raw, Scan(messages, trailers, HitCompressed), frames[i + 1..]);
        return CompressedBody;
      }
      if f.IsTrailer() {
        var t := ParseTrailers(u, f.payload);
        trailers := Some(t);
      } else {
        messages := messages + [f.payload];
      }
      i := i + 1;
    }
    return if error != NotTruncated then CutBody(error) else Decoded(messages, trailers);
  }

  // ---- streams --------------------------------------------------------------------------------

  datatype Outcome =
    | CleanEnd                   // the iterator stops: finished, or cut off and to be reattached
    | GrpcError(why: Verdict)    // the trailer reports an error
    | CompressedFrame
    | Unavailable                // transport failure or undecodable message: retryable

  /** How a stream ends, given what was scanned and whether the transport broke after it. */
  function Ending<T>(s: Scan<T>, broke: bool): Outcome {
    match s.stop
    case HitCompressed => CompressedFrame
    case HitUndecodable => Unavailable
    case Going =>
      if broke then Unavailable
      else if s.trailer.None? then CleanEnd
      else if VerdictOf(s.trailer) == OkStatus then CleanEnd
      else GrpcError(VerdictOf(s.trailer))
  }

  /** What is buffered after some chunks is what a parse of them together leaves over. */
  ghost predicate Buffered<T>(u: Utf8, decode: Decoder<T>, received: Bytes, s: Scan<T>, buffer: Bytes) {
    && s.stop == Going
    && s == TakeAll(u, decode, Scan([], None, Going), ParseFrames(received).frames)
    && buffer == ParseFrames(received).rest
  }

  /** In the middle of draining: the frames taken so far, then the ones still in the buffer. */
  ghost predicate Draining<T>(u: Utf8, decode: Decoder<T>, received: Bytes, taken: seq<Frame>, s: Scan<T>,
                              buffer: Bytes) {
    && s == TakeAll(u, decode, Scan([], None, Going), taken)
    && ParseFrames(received) == Before(taken, ParseFrames(buffer))
  }

  lemma DrainStart<T>(u: Utf8, decode: Decoder<T>, received: Bytes, s: Scan<T>, buffer: Bytes, chunk: Bytes)
    requires Buffered(u, decode, received, s, buffer)
    ensures Draining(u, decode, received + chunk, ParseFrames(received).frames, s, buffer + chunk)
  {
    ParseMore(received, chunk);
  }

  lemma DrainNext<T>(u: Utf8, decode: Decoder<T>, received: Bytes, taken: seq<Frame>, s: Scan<T>, buffer: Bytes,
                     f: Frame, rest: Bytes)
    requires Draining(u, decode, received, taken, s, buffer)
    requires Packable(f) && buffer == EncodeFrame(f) + rest
    ensures Draining(u, decode, received, taken + [f], TakeOne(u, decode, s, f), rest)
  {
    FrontFrame(f, rest);
    TakeSnoc(u, decode, Scan([], None, Going), taken, f);
    BeforeTwice(taken, [f], ParseFrames(rest));
  }

  /** When decoding stopped, whatever is still to come does not change the result. */
  lemma DrainStopped<T>(u: Utf8, decode: Decoder<T>, received: Bytes, later: Bytes, taken: seq<Frame>, s: Scan<T>,
                        buffer: Bytes)
    requires Draining(u, decode, received, taken, s, buffer) && s.stop != Going
    ensures ScanBytes(u, decode, received + later) == s
  {
    var tail := LaterFrames(received, later, taken, ParseFrames(buffer));
    TakeAppend(u, decode, Scan([], None, Going), taken, tail);
    StopAbsorbs(u, decode, s, tail);
  }

  lemma LaterFrames(received: Bytes, later: Bytes, taken: seq<Frame>, p: Parse) returns (tail: seq<Frame>)
    requires ParseFrames(received) == Before(taken, p)
    ensures ParseFrames(received + later).frames == taken + tail
  {
    ParseMore(received, later);
    tail := p.frames + ParseFrames(p.rest + later).frames;
    assert taken + p.frames + ParseFrames(p.rest + later).frames == taken + tail;
  }

  /**
   Reframe a stream of chunks, however the bytes are cut into chunks. The result is the one-pass
   reading of all bytes together; the buffer ends up holding what that reading leaves over.
   */
  method StreamResponses<T>(u: Utf8, decode: Decoder<T>, chunks: seq<Bytes>, broke: bool)
    returns (yielded: seq<T>, outcome: Outcome, left: Bytes)
    ensures var s := ScanBytes(u, decode, Flatten(chunks));
            && yielded == s.yielded && outcome == Ending(s, broke)
            && (s.stop == Going ==> left == ParseFrames(Flatten(chunks)).rest)
  {
    var buffer := new ByteBuffer();
    yielded := [];
    var trailer: Option<Trailer> := None;
    var i := 0;
    while i < |chunks|
      invariant i <= |chunks| && fresh(buffer)
      invariant Buffered(u, decode, Flatten(chunks[..i]), Scan(yielded, trailer, Going), buffer.bytes)
    {
      ghost var received, s := Flatten(chunks[..i]), Scan(yielded, trailer, Going);
      assert chunks[..i + 1] == chunks[..i] + [chunks[i]];
      assert chunks == chunks[..i + 1] + chunks[i + 1..];
      FlattenSnoc(chunks[..i], chunks[i]);
      FlattenAppend(chunks[..i + 1], chunks[i + 1..]);
      DrainStart(u, decode, received, s, buffer.bytes, chunks[i]);
      if chunks[i] == [] {
        assert received + chunks[i] == received;
        i := i + 1;
        continue;
      }
      buffer.Extend(chunks[i]);
      received := received + chunks[i];
      ghost var taken := ParseFrames(Flatten(chunks[..i])).frames;
      while true
        invariant fresh(buffer)
        invariant Draining(u, decode, received, taken, Scan(yielded, trailer, Going), buffer.bytes)
        decreases |buffer.bytes|
      {
        ghost var before := buffer.bytes;
        var frame := buffer.TakeFrame();
        if frame.None? {
          break;
        }
        var f := frame.value;
        s := Scan(yielded, trailer, Going);
        DrainNext(u, decode, received, taken, s, before, f, buffer.bytes);
        taken := taken + [f];
        if f.IsCompressed() {
          DrainStopped(u, decode, received, Flatten(chunks[i + 1..]), taken, TakeOne(u, decode, s, f), buffer.bytes);
          return yielded, CompressedFrame, buffer.bytes;
        }
        if f.IsTrailer() {
          var t := ParseTrailers(u, f.payload);
          trailer := Some(t);
        } else {
          match decode(f.payload) {
            case None =>
              DrainStopped(u, decode, received, Flatten(chunks[i + 1..]), taken, TakeOne(u, decode, s, f),
                           buffer.bytes);
              return yielded, Unavailable, buffer.bytes;
            case Some(m) =>
              yielded := yielded + [m];
          }
        }
      }
      assert ParseFrames(received) == Parse(taken, buffer.bytes);
      i := i + 1;
    }
    assert chunks[..|chunks|] == chunks;
    left := buffer.bytes;
    if broke {
      outcome := Unavailable;
    } else if trailer.None? {
      outcome := CleanEnd;
    } else {
      var v := VerdictOf(trailer);
      outcome := if v == OkStatus then CleanEnd else GrpcError(v);
    }
  }

  // ---- well-formed responses, whole and cut ---------------------------------------------------

  /** Messages, then one trailer frame. */
  function Response(payloads: seq<Bytes>, trailer: Bytes): seq<Frame> {
    Messages(payloads) + [Frame(0x80, trailer)]
  }

  function DecodeEach<T>(decode: Decoder<T>, payloads: seq<Bytes>): (r: seq<T>)
    requires forall p | p in payloads :: decode(p).Some?
    ensures |r| == |payloads|
  {
    if payloads == [] then [] else [decode(payloads[0]).value] + DecodeEach(decode, payloads[1..])
  }

  lemma {:induction false} DecodeTake<T>(decode: Decoder<T>, payloads: seq<Bytes>, j: nat)
    requires j <= |payloads| && forall p | p in payloads :: decode(p).Some?
    ensures DecodeEach(decode, payloads[..j]) == DecodeEach(decode, payloads)[..j]
  {
    if j > 0 {
      assert payloads[..j][1..] == payloads[1..][..j - 1];
      DecodeTake(decode, payloads[1..], j - 1);
    }
  }

  /** Data frames are decoded one by one, in order. */
  lemma {:induction false} TakeMessages<T>(u: Utf8, decode: Decoder<T>, acc: Scan<T>, payloads: seq<Bytes>)
    requires acc.stop == Going && forall p | p in payloads :: decode(p).Some?
    ensures TakeAll(u, decode, acc, Messages(payloads)) == acc.(yielded := acc.yielded + DecodeEach(decode, payloads))
    decreases |payloads|
  {
    if payloads != [] {
      var f := Frame(0, payloads[0]);
      assert Messages(payloads)[0] == f && Messages(payloads)[1..] == Messages(payloads[1..]);
      TakeMessages(u, decode, acc.(yielded := acc.yielded + [decode(payloads[0]).value]), payloads[1..]);
    } else {
      assert acc.yielded + DecodeEach(decode, payloads) == acc.yielded;
    }
  }

  ghost predicate Sendable<T>(decode: Decoder<T>, payloads: seq<Bytes>, trailer: Bytes) {
    (forall p | p in payloads :: |p| < U32_LIMIT && decode(p).Some?) && |trailer| < U32_LIMIT
  }

  lemma ResponsePacks<T>(decode: Decoder<T>, payloads: seq<Bytes>, trailer: Bytes)
    requires Sendable(decode, payloads, trailer)
    ensures forall f | f in Response(payloads, trailer) :: Packable(f)
  {
    forall f | f in Response(payloads, trailer) ensures Packable(f) {
      if f in Messages(payloads) {
        var i :| 0 <= i < |payloads| && f == Messages(payloads)[i];
        assert payloads[i] in payloads;
      }
    }
  }

  /**
   A complete response delivers every message, in order, and then fails exactly when its trailer
   does not report status 0.
   */
  lemma CompleteResponse<T>(u: Utf8, decode: Decoder<T>, payloads: seq<Bytes>, trailer: Bytes)
    requires Sendable(decode, payloads, trailer)
    ensures var s := ScanBytes(u, decode, EncodeFrames(Response(payloads, trailer)));
            && s.yielded == DecodeEach(decode, payloads)
            && (Ending(s, false) == CleanEnd <==>
                  STATUS_KEY in TrailersOf(u, trailer) && TrailersOf(u, trailer)[STATUS_KEY] == "0")
            && (!SaysOk(TrailersOf(u, trailer)) ==> Ending(s, false) == GrpcError(Reason(TrailersOf(u, trailer))))
            && s.trailer == Some(TrailersOf(u, trailer)) && s.stop == Going
  {
    ScanResponse(u, decode, payloads, trailer);
  }

  lemma ScanResponse<T>(u: Utf8, decode: Decoder<T>, payloads: seq<Bytes>, trailer: Bytes)
    requires Sendable(decode, payloads, trailer)
    ensures ScanBytes(u, decode, EncodeFrames(Response(payloads, trailer))) ==
            Scan(DecodeEach(decode, payloads), Some(TrailersOf(u, trailer)), Going)
  {
    ResponsePacks(decode, payloads, trailer);
    ParseWhole(Response(payloads, trailer));
    TakeResponse(u, decode, payloads, trailer);
  }

  lemma ParseWhole(frames: seq<Frame>)
    requires forall f | f in frames :: Packable(f)
    ensures ParseFrames(EncodeFrames(frames)).frames == frames
  {
    ParseEncoded(frames, []);
    assert EncodeFrames(frames) + [] == EncodeFrames(frames);
  }

  lemma TakeResponse<T>(u: Utf8, decode: Decoder<T>, payloads: seq<Bytes>, trailer: Bytes)
    requires forall p | p in payloads :: decode(p).Some?
    ensures TakeAll(u, decode, Scan([], None, Going), Response(payloads, trailer)) ==
            Scan(DecodeEach(decode, payloads), Some(TrailersOf(u, trailer)), Going)
  {
    TakeSnoc(u, decode, Scan([], None, Going), Messages(payloads), Frame(0x80, trailer));
    TakeMessages(u, decode, Scan([], None, Going), payloads);
    assert [] + DecodeEach(decode, payloads) == DecodeEach(decode, payloads);
  }

  /**
   A response cut anywhere before its end delivers a prefix of its messages, the ones that arrived
   whole, and ends cleanly: that is what lets the client reattach.
   */
  lemma CutResponse<T>(u: Utf8, decode: Decoder<T>, payloads: seq<Bytes>, trailer: Bytes, k: nat) returns (j: nat)
    requires Sendable(decode, payloads, trailer)
    requires k < |EncodeFrames(Response(payloads, trailer))|
    ensures j <= |payloads|
    ensures var s := ScanBytes(u, decode, EncodeFrames(Response(payloads, trailer))[..k]);
            && s == Scan(DecodeEach(decode, payloads)[..j], None, Going)
            && Ending(s, false) == CleanEnd && Ending(s, true) == Unavailable
    ensures |EncodeFrames(Response(payloads, trailer)[..j])| <= k < |EncodeFrames(Response(payloads, trailer)[..j + 1])|
  {
    j := WhereCut(payloads, trailer, k);
    ResponsePacks(decode, payloads, trailer);
    TakeSome(u, decode, payloads, j);
  }

  /** A cut response parses to the messages that lie before the cut. */
  lemma WhereCut(payloads: seq<Bytes>, trailer: Bytes, k: nat) returns (j: nat)
    requires k < |EncodeFrames(Response(payloads, trailer))|
    requires Sendable(Raw, payloads, trailer)
    ensures j <= |payloads|
    ensures var frames := Response(payloads, trailer);
            && ParseFrames(EncodeFrames(frames)[..k]).frames == frames[..j] == Messages(payloads[..j])
            && |EncodeFrames(frames[..j])| <= k < |EncodeFrames(frames[..j + 1])|
  {
    var frames := Response(payloads, trailer);
    ResponsePacks(Raw, payloads, trailer);
    j := CutFrames(frames, k);
    assert frames[..|frames|] == frames;
    assert frames[..j] == Messages(payloads[..j]);
  }

  lemma TakeSome<T>(u: Utf8, decode: Decoder<T>, payloads: seq<Bytes>, j: nat)
    requires j <= |payloads| && forall p | p in payloads :: decode(p).Some?
    ensures TakeAll(u, decode, Scan([], None, Going), Messages(payloads[..j])) ==
              Scan(DecodeEach(decode, payloads)[..j], None, Going)
  {
    TakeMessages(u, decode, Scan([], None, Going), payloads[..j]);
    DecodeTake(decode, payloads, j);
    assert [] + DecodeEach(decode, payloads[..j]) == DecodeEach(decode, payloads[..j]);
  }

  /**
   On every byte string the whole-body decoder and the stream agree: on compression, on the messages,
   on the trailer and its status. A cut body, which the one refuses, the other takes for the body that
   was complete before the cut; a missing trailer, an error for the one, is a clean end for the other.
   */
  lemma BodyAndStreamAgree(u: Utf8, data: Bytes)
    ensures var s, b := ScanBytes(u, Raw, data), BodyOf(u, data);
            match b
            case CompressedBody => Ending(s, false) == CompressedFrame
            case Decoded(messages, trailers) =>
              && s.yielded == messages && s.trailer == trailers
              && (Ending(s, false) == CleanEnd <==> VerdictOf(trailers) == OkStatus || trailers.None?)
              && (Ending(s, false) != CleanEnd ==> Ending(s, false) == GrpcError(VerdictOf(trailers)))
            case CutBody(_) =>
              var n := |data| - |ParseFrames(data).rest|;
              0 <= n < |data| && BodyOf(u, data[..n]) == Decoded(s.yielded, s.trailer)
                && ScanBytes(u, Raw, data[..n]) == s
  {
    RawNeverFails(u, Scan([], None, Going), ParseFrames(data).frames);
    var p := ParseFrames(data);
    EncodeParsed(data);
    if BodyOf(u, data).CutBody? {
      var n := |EncodeFrames(p.frames)|;
      assert data[..n] == EncodeFrames(p.frames) + [] == EncodeFrames(p.frames);
      ParseEncoded(p.frames, []);
    }
  }

  lemma {:induction false} RawNeverFails(u: Utf8, acc: Scan<Bytes>, frames: seq<Frame>)
    requires acc.stop != HitUndecodable
    ensures TakeAll(u, Raw, acc, frames).stop != HitUndecodable
    decreases |frames|
  {
    if frames != [] {
      RawNeverFails(u, TakeOne(u, Raw, acc, frames[0]), frames[1..]);
    }
  }

  // ---- replies to unary calls --------------------------------------------------------------------

  type Headers = map<string, string>

  /** HTTP headers with their names in lower case; of names that then agree any one may count. */
  ghost predicate Lowered(headers: Headers, l: Headers) {
    && (forall k | k in headers :: Lower(k) in l)
    && (forall n | n in l :: exists k :: k in headers && Lower(k) == n && l[n] == headers[k])
  }

  /** A status header is seen however its name is written, and only such a header is taken for it. */
  lemma StatusHeader(headers: Headers, l: Headers)
    requires Lowered(headers, l)
    ensures STATUS_KEY in l <==> exists k :: k in headers && Lower(k) == STATUS_KEY
    ensures STATUS_KEY in l ==> exists k :: k in headers && Lower(k) == STATUS_KEY && l[STATUS_KEY] == headers[k]
    ensures forall k | k in headers && Lower(k) == STATUS_KEY ::
              (forall n | n in headers && Lower(n) == STATUS_KEY :: n == k) ==> l[STATUS_KEY] == headers[k]
  {
  }

  ghost function NameFor(headers: Headers, n: string): (k: string)
    requires exists k :: k in headers && Lower(k) == n
    ensures k in headers && Lower(k) == n
  {
    var k :| k in headers && Lower(k) == n;
    k
  }

  /** There is always such a reading of the headers. */
  lemma LoweredExists(headers: Headers) returns (l: Headers)
    ensures Lowered(headers, l)
  {
    ghost var names := set k | k in headers :: Lower(k);
    l := map n | n in names :: headers[NameFor(headers, n)];
    forall n | n in l ensures exists k :: k in headers && Lower(k) == n && l[n] == headers[k] {
      var k := NameFor(headers, n);
      assert k in headers && Lower(k) == n && l[n] == headers[k];
    }
  }

  /** The status some deployments put in HTTP headers. */
  function HeaderTrailer(l: Headers): Option<Trailer> {
    if STATUS_KEY !in l then None
    else
      var status := map[STATUS_KEY := l[STATUS_KEY]];
      Some(if MESSAGE_KEY in l then status[MESSAGE_KEY := l[MESSAGE_KEY]] else status)
  }

  predicate SaysOk(t: Trailer) {
    STATUS_KEY in t && t[STATUS_KEY] == "0"
  }

  /** What the caller of a unary method gets. */
  datatype Reply<T> =
    | Value(message: T)
    | Refused(why: Verdict)
    | NoMessage
    | Undecodable
    | Compressed
    | Cut(how: Truncation)

  /** The HTTP headers count only for a body without a trailer. */
  function ReplyOf<T>(u: Utf8, decode: Decoder<T>, body: Bytes, l: Headers): Reply<T> {
    match BodyOf(u, body)
    case CompressedBody => Compressed
    case CutBody(how) => Cut(how)
    case Decoded(messages, trailers) =>
      var v := VerdictOf(if trailers.None? then HeaderTrailer(l) else trailers);
      if v != OkStatus then Refused(v)
      else if messages == [] then NoMessage
      else match decode(messages[0])
           case None => Undecodable
           case Some(m) => Value(m)
  }

  lemma {:induction false} DecodeRaw(payloads: seq<Bytes>)
    ensures DecodeEach(Raw, payloads) == payloads
  {
    if payloads != [] {
      DecodeRaw(payloads[1..]);
    }
  }

  /** Why a status block is refused: it names no status, or one other than 0. */
  function Reason(t: Trailer): Verdict
    requires !SaysOk(t)
  {
    if STATUS_KEY !in t then NoStatus
    else ErrorStatus(t[STATUS_KEY], if MESSAGE_KEY in t then t[MESSAGE_KEY] else "")
  }

  /** The reply to a response that arrived whole. */
  ghost predicate IsWholeReply<T>(decode: Decoder<T>, payloads: seq<Bytes>, t: Trailer, r: Reply<T>) {
    if !SaysOk(t) then r == Refused(Reason(t))
    else if payloads == [] then r == NoMessage
    else match decode(payloads[0])
         case None => r == Undecodable
         case Some(m) => r == Value(m)
  }

  /**
   A whole response gives its first message exactly when its trailer reports status 0, whatever the HTTP
   headers say, and otherwise the status and message of the trailer.
   */
  lemma WholeReply<T>(u: Utf8, decode: Decoder<T>, payloads: seq<Bytes>, trailer: Bytes, l: Headers)
    requires Sendable(Raw, payloads, trailer)
    ensures IsWholeReply(decode, payloads, TrailersOf(u, trailer),
                         ReplyOf(u, decode, EncodeFrames(Response(payloads, trailer)), l))
  {
    WholeBody(u, payloads, trailer);
  }

  /** An encoded error comes back as that error. */
  lemma EncodedReply<T>(u: Utf8, decode: Decoder<T>, payloads: seq<Bytes>, status: int, message: string, l: Headers)
    requires ValidUtf8(u) && Clean(message) && status != 0
    requires Sendable(Raw, payloads, EncodeTrailers(u, status, message).payload)
    ensures ReplyOf(u, decode, EncodeFrames(Response(payloads, EncodeTrailers(u, status, message).payload)), l) ==
              Refused(ErrorStatus(IntText(status), message))
  {
    WholeBody(u, payloads, EncodeTrailers(u, status, message).payload);
    EncodedStatus(u, status, message);
  }

  lemma WholeBody(u: Utf8, payloads: seq<Bytes>, trailer: Bytes)
    requires Sendable(Raw, payloads, trailer)
    ensures BodyOf(u, EncodeFrames(Response(payloads, trailer))) == Decoded(payloads, Some(TrailersOf(u, trailer)))
  {
    var frames := Response(payloads, trailer);
    ScanResponse(u, Raw, payloads, trailer);
    DecodeRaw(payloads);
    ResponsePacks(Raw, payloads, trailer);
    ParseEncoded(frames, []);
    assert EncodeFrames(frames) + [] == EncodeFrames(frames);
  }

  /** The cut leaves some messages whole and nothing of the frame behind them. */
  ghost predicate BetweenFrames(payloads: seq<Bytes>, trailer: Bytes, k: nat) {
    exists j :: 1 <= j <= |payloads| && k == |EncodeFrames(Response(payloads, trailer)[..j])|
  }

  /** The reply to a response of which `j` messages arrived whole, and `part` bytes of the frame behind them. */
  ghost predicate IsCutReply<T>(decode: Decoder<T>, payloads: seq<Bytes>, l: Headers, j: nat, part: nat, r: Reply<T>) {
    if part > 0 then r == Cut(if part < 5 then TruncatedHeader else TruncatedBody)
    else if STATUS_KEY !in l then r == Refused(NoTrailer)
    else IsWholeReply(decode, payloads[..Min(j, |payloads|)], l, r)
  }

  /**
   A cut response is accepted exactly when it was cut behind a message and the HTTP headers report
   status 0; the caller then gets the first message. Otherwise it is refused, and why is said.
   */
  lemma CutReply<T>(u: Utf8, decode: Decoder<T>, payloads: seq<Bytes>, trailer: Bytes, k: nat, l: Headers)
    returns (j: nat)
    requires Sendable(decode, payloads, trailer) && k < |EncodeFrames(Response(payloads, trailer))|
    ensures j <= |payloads| && |EncodeFrames(Response(payloads, trailer)[..j])| <= k
    ensures k < |EncodeFrames(Response(payloads, trailer)[..j + 1])|
    ensures var r := ReplyOf(u, decode, EncodeFrames(Response(payloads, trailer))[..k], l);
            && IsCutReply(decode, payloads, l, j, k - |EncodeFrames(Response(payloads, trailer)[..j])|, r)
            && (r.Value? <==> BetweenFrames(payloads, trailer, k) && SaysOk(l))
            && (r.Value? ==> payloads != [] && r == Value(decode(payloads[0]).value))
  {
    var frames, data := Response(payloads, trailer), EncodeFrames(Response(payloads, trailer))[..k];
    j := WhereCut(payloads, trailer, k);
    TakeSome(u, Raw, payloads, j);
    DecodeRaw(payloads);
    EncodeParsed(data);
    assert |data| == |EncodeFrames(frames[..j])| + |ParseFrames(data).rest|;
    CutOnce(payloads, trailer, k, j);
    ReplyToCut(u, decode, payloads, data, l, j);
  }

  /** What is made of a body that holds `j` messages and no trailer. */
  lemma ReplyToCut<T>(u: Utf8, decode: Decoder<T>, payloads: seq<Bytes>, data: Bytes, l: Headers, j: nat)
    requires j <= |payloads| && (forall p | p in payloads :: decode(p).Some?)
    requires ScanBytes(u, Raw, data) == Scan(payloads[..j], None, Going)
    ensures var r := ReplyOf(u, decode, data, l);
            && IsCutReply(decode, payloads, l, j, |ParseFrames(data).rest|, r)
            && (r.Value? <==> ParseFrames(data).rest == [] && SaysOk(l) && j > 0)
            && (r.Value? ==> r == Value(decode(payloads[0]).value))
  {
  }

  /** The cut leaves nothing of a frame only if it is at the end of the last message before it. */
  lemma CutOnce(payloads: seq<Bytes>, trailer: Bytes, k: nat, j: nat)
    requires j <= |payloads|
    requires var frames := Response(payloads, trailer);
             |EncodeFrames(frames[..j])| <= k < |EncodeFrames(frames[..j + 1])|
    ensures BetweenFrames(payloads, trailer, k) <==> 1 <= j && k == |EncodeFrames(Response(payloads, trailer)[..j])|
  {
    var frames := Response(payloads, trailer);
    forall i | 1 <= i <= |payloads| && k == |EncodeFrames(frames[..i])| ensures i == j {
      if i < j {
        MoreIsLonger(frames, i + 1, j);
        MoreIsLonger(frames, i, i + 1);
      } else if i > j {
        MoreIsLonger(frames, j + 1, i);
      }
    }
  }

  lemma MoreIsLonger(frames: seq<Frame>, i: nat, j: nat)
    requires i <= j <= |frames|
    ensures |EncodeFrames(frames[..i])| <= |EncodeFrames(frames[..j])|
    ensures i < j ==> |EncodeFrames(frames[..i])| < |EncodeFrames(frames[..j])|
  {
    assert frames[..j] == frames[..i] + frames[i..j];
    EncodeAppend(frames[..i], frames[i..j]);
  }

  /** The verdict is the status that was encoded. */
  ghost predicate Survives(status: int, v: Verdict) {
    if status == 0 then v == OkStatus else v.ErrorStatus? && v.status == IntText(status)
  }

  function EncodedVerdict(u: Utf8, status: int, message: string): Verdict {
    VerdictOf(Some(TrailersOf(u, EncodeTrailers(u, status, message).payload)))
  }

  /**
   A status that was encoded is the status that is reported, 0 as success and every other as an error,
   if and only if the last line behind the first one of the message that names grpc-status, if there
   is any, repeats it.
   */
  lemma EncodedStatus(u: Utf8, status: int, message: string)
    requires ValidUtf8(u)
    ensures Survives(status, EncodedVerdict(u, status, message)) <==> Repeats(LaterLines(message), IntText(status))
    ensures NoBreak(message) ==> Survives(status, EncodedVerdict(u, status, message))
    ensures Clean(message) && status != 0 ==>
              EncodedVerdict(u, status, message) == ErrorStatus(IntText(status), message)
  {
    assert u.dec(u.enc(TrailerText(status, message))) == TrailerText(status, message);
    EncodedStatusText(status, message);
    ZeroText(status);
    if Clean(message) {
      CleanRoundTrip(status, message);
    }
    if NoBreak(message) {
      OneLineRepeats(message, IntText(status));
    }
  }

  /** A message with a second line can change the status to any other, also an error to success. */
  lemma StatusOverridden(u: Utf8, status: int, other: int)
    requires ValidUtf8(u)
    ensures Survives(other, EncodedVerdict(u, status, "x\ngrpc-status:" + IntText(other)))
  {
    var message := "x\ngrpc-status:" + IntText(other);
    assert u.dec(u.enc(TrailerText(status, message))) == TrailerText(status, message);
    IntTextClean(other);
    OverridingText(status, IntText(other));
    ZeroText(other);
  }

  lemma ZeroText(n: int)
    ensures IntText(n) == "0" <==> n == 0
  {
    if n >= 10 {
      DigitsText(n / 10);
    } else if n < 0 {
      DigitsText(-n);
    }
  }

  // ---- compressed frames ----------------------------------------------------------------------------

  /** Frames that do not stop a decoder: none is compressed, and each message is one. */
  ghost predicate Harmless<T>(decode: Decoder<T>, frames: seq<Frame>) {
    forall f | f in frames :: Packable(f) && f.flags % 2 == 0 && (f.flags < 128 ==> decode(f.payload).Some?)
  }

  lemma {:induction false} HarmlessGoesOn<T>(u: Utf8, decode: Decoder<T>, acc: Scan<T>, frames: seq<Frame>)
    requires Harmless(decode, frames) && acc.stop == Going
    ensures TakeAll(u, decode, acc, frames).stop == Going
    decreases |frames|
  {
    if frames != [] {
      assert frames[0] in frames;
      FlagBits(frames[0]);
      HarmlessGoesOn(u, decode, TakeOne(u, decode, acc, frames[0]), frames[1..]);
    }
  }

  /**
   The first frame with bit 0 set stops every decoder, whatever comes behind it: bodies and unary replies
   are compressed, and a stream ends with that error.
   */
  lemma CompressedIsReported<T>(u: Utf8, decode: Decoder<T>, before: seq<Frame>, f: Frame, later: Bytes, l: Headers)
    requires Harmless(decode, before) && Packable(f) && f.flags % 2 == 1
    ensures var data := EncodeFrames(before + [f]) + later;
            && BodyOf(u, data) == CompressedBody && ReplyOf(u, decode, data, l) == Compressed
            && (forall broke :: Ending(ScanBytes(u, decode, data), broke) == CompressedFrame)
            && ScanBytes(u, decode, data).yielded == TakeAll(u, decode, Scan([], None, Going), before).yielded
  {
    CompressedStops(u, decode, before, f, later);
    CompressedStops(u, Raw, before, f, later);
  }

  lemma CompressedStops<T>(u: Utf8, decode: Decoder<T>, before: seq<Frame>, f: Frame, later: Bytes)
    requires Harmless(decode, before) && Packable(f) && f.flags % 2 == 1
    ensures ScanBytes(u, decode, EncodeFrames(before + [f]) + later) ==
              TakeAll(u, decode, Scan([], None, Going), before).(stop := HitCompressed)
  {
    var frames, start := before + [f], Scan([], None, Going);
    ParseWhole(frames);
    ParseMore(EncodeFrames(frames), later);
    var tail := ParseFrames(ParseFrames(EncodeFrames(frames)).rest + later).frames;
    TakeAppend(u, decode, start, frames, tail);
    TakeSnoc(u, decode, start, before, f);
    HarmlessGoesOn(u, decode, start, before);
    FlagBits(f);
    StopAbsorbs(u, decode, TakeAll(u, decode, start, frames), tail);
  }

  /** A message, or a trailer, is what a frame without bit 0 is; bit 7 tells which. */
  lemma TakenFor<T>(u: Utf8, decode: Decoder<T>, acc: Scan<T>, f: Frame)
    requires acc.stop == Going && f.flags % 2 == 0
    ensures var t := TakeOne(u, decode, acc, f);
            if f.flags >= 128 then t == acc.(trailer := Some(TrailersOf(u, f.payload)))
            else if decode(f.payload).None? then t == acc.(stop := HitUndecodable)
            else t == acc.(yielded := acc.yielded + [decode(f.payload).value])
  {
    FlagBits(f);
  }
}
