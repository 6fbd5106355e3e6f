/** From the messages a server sends to the messages a caller gets, across fetch, bridge and decoder. */
module EndToEnd {
  import opened Bytes
  import opened Marshal
  import P = Protocol
  import I = Invariant
  import S = Safety
  import L = Liveness
  import F = Framing
  import T = Trailers
  import G = GrpcWeb
  import A = Arrow

  /** What a server sends: messages, then one trailer. */
  datatype Sent = Sent(payloads: seq<Bytes>, trailer: Bytes)

  function Wire(m: Sent): Bytes {
    F.EncodeFrames(G.Response(m.payloads, m.trailer))
  }

  /** The body of a response to which `m` was sent: all of it, or what came before the connection was cut. */
  ghost predicate Carries<M>(r: P.Response, decode: G.Decoder<M>, m: Sent) {
    r.Answers? && G.Sendable(decode, m.payloads, m.trailer) && Flatten(r.chunks) <= Wire(m)
  }

  predicate Whole(r: P.Response, m: Sent) {
    r.Answers? && Flatten(r.chunks) == Wire(m)
  }

  /** The first `j` messages, and no more, lie before byte `n`. */
  ghost predicate Arrived(m: Sent, n: nat, j: nat) {
    var frames := G.Response(m.payloads, m.trailer);
    && j <= |m.payloads| && |F.EncodeFrames(frames[..j])| <= n
    && (j < |m.payloads| ==> n < |F.EncodeFrames(frames[..j + 1])|)
  }

  predicate SaysOk(u: T.Utf8, trailer: Bytes) {
    G.SaysOk(T.TrailersOf(u, trailer))
  }

  /** What the stub makes of the chunks a stream has been handed. */
  function View<M>(u: T.Utf8, decode: G.Decoder<M>, p: P.Rpc): G.Scan<M> {
    G.ScanBytes(u, decode, Flatten(p.got))
  }

  /** How the stub ends once the stream did. */
  function StubEnd<M>(u: T.Utf8, decode: G.Decoder<M>, p: P.Rpc): G.Outcome {
    G.Ending(View(u, decode, p), p.outcome.Failed?)
  }

  /** A stub ends cleanly, to be reattached if the trailer is missing, or with the error the trailer names. */
  function CleanOrError(u: T.Utf8, m: Sent, whole: bool): G.Outcome {
    var t := T.TrailersOf(u, m.trailer);
    if !whole || G.SaysOk(t) then G.CleanEnd else G.GrpcError(G.Reason(t))
  }

  // ---- streams -------------------------------------------------------------------------------

  /** Any part of the wire from its start shows the messages in it, and the status if it is all of it. */
  lemma ReadWire<M>(u: T.Utf8, decode: G.Decoder<M>, m: Sent, data: Bytes) returns (j: nat)
    requires G.Sendable(decode, m.payloads, m.trailer) && data <= Wire(m)
    ensures Arrived(m, |data|, j)
    ensures Reads(G.ScanBytes(u, decode, data), u, decode, m, j, data == Wire(m))
  {
    if |data| < |Wire(m)| {
      assert data == Wire(m)[..|data|];
      j := ReadCut(u, decode, m, |data|);
    } else {
      assert data == Wire(m);
      j := |m.payloads|;
      ReadWhole(u, decode, m);
      AllArrived(m);
    }
  }

  /** `s` has the first `j` messages, and ends as a whole or a cut response should. */
  ghost predicate Reads<M>(s: G.Scan<M>, u: T.Utf8, decode: G.Decoder<M>, m: Sent, j: nat, whole: bool)
    requires G.Sendable(decode, m.payloads, m.trailer)
  {
    && j <= |m.payloads| && s.yielded == G.DecodeEach(decode, m.payloads)[..j]
    && G.Ending(s, false) == CleanOrError(u, m, whole)
    && G.Ending(s, true) == G.Unavailable
  }

  lemma ReadCut<M>(u: T.Utf8, decode: G.Decoder<M>, m: Sent, k: nat) returns (j: nat)
    requires G.Sendable(decode, m.payloads, m.trailer) && k < |Wire(m)|
    ensures Arrived(m, k, j) && Reads(G.ScanBytes(u, decode, Wire(m)[..k]), u, decode, m, j, false)
  {
    j := G.CutResponse(u, decode, m.payloads, m.trailer, k);
  }

  lemma ReadWhole<M>(u: T.Utf8, decode: G.Decoder<M>, m: Sent)
    requires G.Sendable(decode, m.payloads, m.trailer)
    ensures Reads(G.ScanBytes(u, decode, Wire(m)), u, decode, m, |m.payloads|, true)
  {
    G.CompleteResponse(u, decode, m.payloads, m.trailer);
  }

  lemma AllArrived(m: Sent)
    ensures Arrived(m, |Wire(m)|, |m.payloads|)
  {
    var frames, n := G.Response(m.payloads, m.trailer), |m.payloads|;
    assert frames == frames[..n] + frames[n..];
    F.EncodeAppend(frames[..n], frames[n..]);
  }

  /**
   A faithful stream shows its caller exactly the messages that lie before the last byte it was handed.
   The stub ends cleanly exactly if it was not handed the whole trailer, or that reports status 0; this
   is so when the stream ended by itself, and also when it ended without a sign. If it failed, that is
   retryable.
   */
  ghost predicate ShowsTheTruth<M>(p: P.Rpc, r: P.Response, u: T.Utf8, decode: G.Decoder<M>, m: Sent, j: nat)
    requires G.Sendable(decode, m.payloads, m.trailer) && r.Answers?
  {
    && Arrived(m, |Flatten(p.got)|, j) && Flatten(p.got) <= Flatten(r.chunks)
    && View(u, decode, p).yielded == G.DecodeEach(decode, m.payloads)[..j]
    && (p.outcome == P.Ended || p.outcome.Failed? ==> Flatten(p.got) == Flatten(r.chunks))
    && StubEnd(u, decode, p) ==
         if p.outcome.Failed? then G.Unavailable else CleanOrError(u, m, Flatten(p.got) == Wire(m))
  }

  lemma FaithfulStream<M>(p: P.Rpc, r: P.Response, u: T.Utf8, decode: G.Decoder<M>, m: Sent) returns (j: nat)
    requires I.Faithful(p, r) && p.req.header.kind == ServerStream && Carries(r, decode, m)
    ensures ShowsTheTruth(p, r, u, decode, m, j)
  {
    NonEmptyKeepsBytes(r.chunks);
    FlattenPrefix(p.got, NonEmpty(r.chunks));
    j := ReadWire(u, decode, m, Flatten(p.got));
  }

  /**
   In every run, at every moment: the messages decoded from what generation g's caller was handed are
   the first ones of its own response, never another's and never made up, wherever the network cut it.
   */
  lemma StreamNeverFabricates<M>(c: P.Config, acts: seq<P.Action>, g: nat, u: T.Utf8, decode: G.Decoder<M>, m: Sent)
    returns (j: nat)
    requires S.GoodRun(c, acts)
    requires var s := P.After(c, P.Init(c), acts);
             1 <= g <= |s.rpcs| && s.rpcs[g - 1].req.header.kind == ServerStream
             && Carries(c.world(g, s.rpcs[g - 1].req), decode, m)
    ensures var p := P.After(c, P.Init(c), acts).rpcs[g - 1];
            ShowsTheTruth(p, c.world(g, p.req), u, decode, m, j)
  {
    FaithfulCall(c, acts, g);
    var p := P.After(c, P.Init(c), acts).rpcs[g - 1];
    j := FaithfulStream(p, c.world(g, p.req), u, decode, m);
  }

  lemma FaithfulCall(c: P.Config, acts: seq<P.Action>, g: nat)
    requires S.GoodRun(c, acts) && 1 <= g <= |P.After(c, P.Init(c), acts).rpcs|
    ensures var p := P.After(c, P.Init(c), acts).rpcs[g - 1]; I.Faithful(p, c.world(g, p.req))
  {
    S.CrossRpcIsolation(c, acts);
    var s := P.After(c, P.Init(c), acts);
    var i := g - 1;
    assert I.Faithful(s.rpcs[i], c.world(i + 1, s.rpcs[i].req));
  }

  /**
   Under every schedule a stream that is neither closed nor superseded comes to its end, and its
   caller then has exactly the messages that arrived from the server, in order: all of them, and the
   status the trailer reports, when the response was whole.
   */
  lemma StreamDelivered<M>(c: P.Config, run: nat -> P.State, act: nat -> P.Action, g: nat,
                           u: T.Utf8, decode: G.Decoder<M>, m: Sent) returns (k: nat, j: nat)
    requires ValidRun(c, run, act, g)
    requires L.OnTrack(run(0), g) && run(0).w.req.header.kind == ServerStream
    requires Carries(c.world(g, run(0).w.req), decode, m)
    ensures L.Over(run(k), g) && run(k).rpcs[g - 1].req == run(0).w.req
    ensures var p, r := run(k).rpcs[g - 1], c.world(g, run(0).w.req);
            && (if r.ending == P.Done then p.outcome == P.Ended else p.outcome == P.Failed(r.ending.error))
            && ShowsTheTruth(p, r, u, decode, m, j)
            && (Whole(r, m) ==> ShowsAll(p, u, decode, m))
  {
    k := StreamEnds(c, run, act, g);
    var p, r := run(k).rpcs[g - 1], c.world(g, run(0).w.req);
    j := FaithfulStream(p, r, u, decode, m);
    if Whole(r, m) {
      WholeShown(p, r, u, decode, m, j);
    }
  }

  ghost predicate ShowsAll<M>(p: P.Rpc, u: T.Utf8, decode: G.Decoder<M>, m: Sent)
    requires G.Sendable(decode, m.payloads, m.trailer)
  {
    View(u, decode, p).yielded == G.DecodeEach(decode, m.payloads)
  }

  lemma WholeShown<M>(p: P.Rpc, r: P.Response, u: T.Utf8, decode: G.Decoder<M>, m: Sent, j: nat)
    requires G.Sendable(decode, m.payloads, m.trailer) && Whole(r, m)
    requires ShowsTheTruth(p, r, u, decode, m, j) && Flatten(p.got) == Flatten(r.chunks)
    ensures ShowsAll(p, u, decode, m)
  {
    OnlyAll(m, j);
    assert G.DecodeEach(decode, m.payloads)[..|m.payloads|] == G.DecodeEach(decode, m.payloads);
  }

  /** The stream ends as its response did, and is faithful to it. */
  lemma StreamEnds(c: P.Config, run: nat -> P.State, act: nat -> P.Action, g: nat) returns (k: nat)
    requires ValidRun(c, run, act, g)
    requires L.OnTrack(run(0), g) && run(0).w.req.header.kind == ServerStream && c.world(g, run(0).w.req).Answers?
    ensures L.Over(run(k), g) && run(k).rpcs[g - 1].req == run(0).w.req
    ensures var p, r := run(k).rpcs[g - 1], c.world(g, run(0).w.req);
            && I.Faithful(p, r)
            && if r.ending == P.Done then p.outcome == P.Ended else p.outcome == P.Failed(r.ending.error)
  {
    k := L.CallCompletes(c, run, act, g, 0);
    HowItEnds(run(k).rpcs[g - 1], c.world(g, run(0).w.req));
  }

  /** The whole wire holds all messages. */
  lemma OnlyAll(m: Sent, j: nat)
    requires Arrived(m, |Wire(m)|, j)
    ensures j == |m.payloads|
  {
    if j < |m.payloads| {
      var frames := G.Response(m.payloads, m.trailer);
      assert frames == frames[..j + 1] + frames[j + 1..];
      F.EncodeAppend(frames[..j + 1], frames[j + 1..]);
    }
  }

  /** An execution from a reachable state, in which the user neither closes g nor makes another call. */
  ghost predicate ValidRun(c: P.Config, run: nat -> P.State, act: nat -> P.Action, g: nat) {
    && P.ValidConfig(c) && I.Inv(c, run(0))
    && L.Execution(c, run, act, s => L.Over(s, g))
    && forall j: nat :: !act(j).Start? && act(j) != P.Close(g)
  }

  lemma HowItEnds(p: P.Rpc, r: P.Response)
    requires I.Faithful(p, r) && p.req.header.kind == ServerStream && r.Answers?
    requires p.outcome == P.Ended || p.outcome.Returned? || p.outcome.Failed?
    ensures if r.ending == P.Done then p.outcome == P.Ended else p.outcome == P.Failed(r.ending.error)
  {
  }

  // ---- query results -------------------------------------------------------------------------------

  /** The messages sent are a query result: their Arrow chunks fall into these batches. */
  ghost predicate IsResult(ipc: A.Ipc, decode: G.Decoder<A.Response>, m: Sent, groups: seq<seq<A.ArrowBatch>>) {
    && G.Sendable(decode, m.payloads, m.trailer) && A.Acceptable(ipc, groups, 0)
    && Flatten(groups) == A.Batches(G.DecodeEach(decode, m.payloads))
  }

  /** What is reassembled from all that a stream's caller was handed. */
  function Query(ipc: A.Ipc, u: T.Utf8, decode: G.Decoder<A.Response>, p: P.Rpc): A.Result {
    A.Reassembled(ipc, View(u, decode, p).yielded)
  }

  lemma TrueResult(ipc: A.Ipc, p: P.Rpc, r: P.Response, u: T.Utf8, decode: G.Decoder<A.Response>, m: Sent, j: nat,
                   groups: seq<seq<A.ArrowBatch>>) returns (i: nat)
    requires IsResult(ipc, decode, m, groups) && r.Answers? && ShowsTheTruth(p, r, u, decode, m, j)
    ensures A.PrefixResult(ipc, groups, A.Batches(G.DecodeEach(decode, m.payloads)[..j]), i, Query(ipc, u, decode, p))
  {
    i := A.CutStream(ipc, G.DecodeEach(decode, m.payloads), groups, j);
  }

  /**
   In every run, at every moment: what a stream's caller was handed reassembles to the first batches of
   its own query, those that are complete in it, or is refused as truncated if it stops inside a batch.
   */
  lemma BatchesNeverFabricated(c: P.Config, acts: seq<P.Action>, g: nat, ipc: A.Ipc, u: T.Utf8,
                               decode: G.Decoder<A.Response>, m: Sent, groups: seq<seq<A.ArrowBatch>>)
    returns (j: nat, i: nat)
    requires S.GoodRun(c, acts) && IsResult(ipc, decode, m, groups)
    requires var s := P.After(c, P.Init(c), acts);
             1 <= g <= |s.rpcs| && s.rpcs[g - 1].req.header.kind == ServerStream
             && Carries(c.world(g, s.rpcs[g - 1].req), decode, m)
    ensures var p := P.After(c, P.Init(c), acts).rpcs[g - 1];
            && Arrived(m, |Flatten(p.got)|, j)
            && A.PrefixResult(ipc, groups, A.Batches(G.DecodeEach(decode, m.payloads)[..j]), i,
                              Query(ipc, u, decode, p))
  {
    j := StreamNeverFabricates(c, acts, g, u, decode, m);
    var p := P.After(c, P.Init(c), acts).rpcs[g - 1];
    i := TrueResult(ipc, p, c.world(g, p.req), u, decode, m, j, groups);
  }

  /** Under every schedule the batches of a whole response come out as the server grouped them. */
  lemma BatchesDelivered(c: P.Config, run: nat -> P.State, act: nat -> P.Action, g: nat, ipc: A.Ipc, u: T.Utf8,
                         decode: G.Decoder<A.Response>, m: Sent, groups: seq<seq<A.ArrowBatch>>) returns (k: nat)
    requires ValidRun(c, run, act, g) && IsResult(ipc, decode, m, groups)
    requires L.OnTrack(run(0), g) && run(0).w.req.header.kind == ServerStream
    requires Carries(c.world(g, run(0).w.req), decode, m) && Whole(c.world(g, run(0).w.req), m)
    ensures L.Over(run(k), g)
    ensures Query(ipc, u, decode, run(k).rpcs[g - 1]) == A.Ok(A.GroupBatches(ipc, groups), A.GroupSchema(ipc, groups))
  {
    var j;
    k, j := StreamDelivered(c, run, act, g, u, decode, m);
    WholeResult(ipc, G.DecodeEach(decode, m.payloads), groups);
  }

  lemma WholeResult(ipc: A.Ipc, rs: seq<A.Response>, groups: seq<seq<A.ArrowBatch>>)
    requires Flatten(groups) == A.Batches(rs) && A.Acceptable(ipc, groups, 0)
    ensures A.Reassembled(ipc, rs) == A.Ok(A.GroupBatches(ipc, groups), A.GroupSchema(ipc, groups))
  {
    var batches, schema := A.GroupBatches(ipc, groups), A.GroupSchema(ipc, groups);
    A.ExactAcceptance(ipc, rs, batches, schema);
    assert A.Explains(ipc, rs, groups, batches, schema);
  }

  // ---- unary calls ---------------------------------------------------------------------------------

  /**
   A unary call that returns has the status and headers of its own response. Of a whole body its caller
   gets the first message, exactly if the trailer reports status 0. Of a cut body it gets that message
   exactly if the body was cut behind a message and the HTTP headers report status 0.
   */
  lemma UnaryDelivered<M>(c: P.Config, acts: seq<P.Action>, g: nat, u: T.Utf8, decode: G.Decoder<M>, m: Sent,
                          l: G.Headers)
    requires S.GoodRun(c, acts)
    requires var s := P.After(c, P.Init(c), acts);
             1 <= g <= |s.rpcs| && s.rpcs[g - 1].req.header.kind == Unary && s.rpcs[g - 1].outcome.Returned?
             && Carries(c.world(g, s.rpcs[g - 1].req), decode, m) && G.Lowered(s.rpcs[g - 1].outcome.headers, l)
    ensures var p := P.After(c, P.Init(c), acts).rpcs[g - 1];
            var r := c.world(g, p.req);
            && p.outcome == P.Returned(r.status, r.head.headers, Flatten(r.chunks))
            && UnaryReply(r, u, decode, m, l, G.ReplyOf(u, decode, p.outcome.body, l))
  {
    FaithfulCall(c, acts, g);
    var p := P.After(c, P.Init(c), acts).rpcs[g - 1];
    ReplyToBody(c.world(g, p.req), u, decode, m, l);
  }

  /** What the caller gets, and when it is refused, why. */
  ghost predicate UnaryReply<M>(r: P.Response, u: T.Utf8, decode: G.Decoder<M>, m: Sent, l: G.Headers,
                                reply: G.Reply<M>)
    requires Carries(r, decode, m)
  {
    && (if Whole(r, m) then G.IsWholeReply(decode, m.payloads, T.TrailersOf(u, m.trailer), reply)
        else CutShort(decode, m, |Flatten(r.chunks)|, l, reply))
    && (reply.Value? <==>
          if Whole(r, m) then SaysOk(u, m.trailer) && m.payloads != []
          else G.BetweenFrames(m.payloads, m.trailer, |Flatten(r.chunks)|) && G.SaysOk(l))
    && (reply.Value? ==> m.payloads != [] && reply == G.Value(decode(m.payloads[0]).value))
  }

  /** The reply to the first `n` bytes, which hold some messages and a part of the frame behind them. */
  ghost predicate CutShort<M>(decode: G.Decoder<M>, m: Sent, n: nat, l: G.Headers, reply: G.Reply<M>) {
    exists j: nat, part: nat ::
      Arrived(m, n, j) && n == |F.EncodeFrames(G.Response(m.payloads, m.trailer)[..j])| + part
      && G.IsCutReply(decode, m.payloads, l, j, part, reply)
  }

  lemma ReplyToBody<M>(r: P.Response, u: T.Utf8, decode: G.Decoder<M>, m: Sent, l: G.Headers)
    requires Carries(r, decode, m)
    ensures UnaryReply(r, u, decode, m, l, G.ReplyOf(u, decode, Flatten(r.chunks), l))
  {
    var body := Flatten(r.chunks);
    if body == Wire(m) {
      G.WholeReply(u, decode, m.payloads, m.trailer, l);
    } else {
      assert body == Wire(m)[..|body|] && |body| < |Wire(m)|;
      var j := G.CutReply(u, decode, m.payloads, m.trailer, |body|, l);
      var part: nat := |body| - |F.EncodeFrames(G.Response(m.payloads, m.trailer)[..j])|;
      assert Arrived(m, |body|, j);
      assert G.IsCutReply(decode, m.payloads, l, j, part, G.ReplyOf(u, decode, body, l));
    }
  }

  /**
   A cut body can be taken for complete: one message and no trailer, with HTTP headers that report
   status 0. This is how the stub treats servers that send no trailer at all.
   */
  lemma CutBodyAccepted<M>(u: T.Utf8, decode: G.Decoder<M>, m: Sent, l: G.Headers)
    requires G.Sendable(decode, m.payloads, m.trailer) && m.payloads != [] && G.SaysOk(l)
    ensures var body := F.EncodeFrames(G.Response(m.payloads, m.trailer)[..1]);
            && body < Wire(m)
            && G.ReplyOf(u, decode, body, l) == G.Value(decode(m.payloads[0]).value)
  {
    var frames := G.Response(m.payloads, m.trailer);
    var body := F.EncodeFrames(frames[..1]);
    assert frames == frames[..1] + frames[1..];
    F.EncodeAppend(frames[..1], frames[1..]);
    assert body == Wire(m)[..|body|];
    assert G.BetweenFrames(m.payloads, m.trailer, |body|);
    G.MoreIsLonger(frames, 1, |frames|);
    assert frames[..|frames|] == frames;
    var j := G.CutReply(u, decode, m.payloads, m.trailer, |body|, l);
  }
}
