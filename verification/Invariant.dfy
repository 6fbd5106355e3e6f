/** The inductive invariant of the bridge protocol, and its preservation by every step. */
module Invariant {
  import opened Bytes
  import opened Marshal
  import opened Windowing
  import opened Protocol

  // ---- what a caller has been handed, against what fetch returned -----------------------

  function ChunksOf(r: Response): seq<Bytes> {
    if r.Answers? then r.chunks else []
  }

  /** `error` is how response `r` fails, and `got` is all that a stream delivers before it does. */
  ghost predicate FailsWith(r: Response, got: seq<Bytes>, kind: Kind, error: Meta) {
    match r
    case Fails(e) => error == e && got == []
    case Answers(_, _, chunks, ending) =>
      ending == Breaks(error) && (kind == ServerStream ==> got == NonEmpty(chunks))
  }

  /** A caller's view is true to the response fetched for its own request. */
  ghost predicate Faithful(p: Rpc, r: Response) {
    match p.req.header.kind
    case ServerStream =>
      && p.got <= NonEmpty(ChunksOf(r))
      && !p.outcome.Returned? && !p.outcome.Violation? && !p.outcome.TimedOut?
      && (p.outcome == Ended ==> r.Answers? && r.ending == Done && p.got == NonEmpty(r.chunks))
      && (p.outcome.Failed? ==> FailsWith(r, p.got, ServerStream, p.outcome.error))
    case Unary =>
      && p.got == []
      && (p.outcome == Open || p.outcome.Returned? || p.outcome.Failed?)
      && (p.outcome.Returned? ==>
            r.Answers? && r.ending == Done && p.outcome == Returned(r.status, r.head.headers, Flatten(r.chunks)))
      && (p.outcome.Failed? ==> FailsWith(r, p.got, Unary, p.outcome.error))
  }

  // ---- the invariant ---------------------------------------------------------------------

  predicate Publishing(w: WorkerPc) {
    w.Fill? || w == PublishGen || w == PublishReq
  }

  /** No region was announced: both sides use the same one. */
  ghost predicate OnlyNudges(posted: seq<Message>) {
    forall i | 0 <= i < |posted| :: posted[i] == Nudge
  }

  /** The announcement of a new region comes before the nudges for the request in it. */
  ghost predicate InOrder(posted: seq<Message>, announced: bool) {
    if announced then posted != [] && posted[0] == Announce(None) && OnlyNudges(posted[1..]) else OnlyNudges(posted)
  }

  /** The request is not dispatched yet. */
  predicate AwaitsBridge(w: WorkerPc) {
    Publishing(w) || w == PostNudge || w == Wait(REQ_READY)
  }

  /** While the two sides use different regions, the bridge does nothing until it is told. */
  ghost predicate Announced(s: State) {
    && InOrder(s.posted, s.detached.Some?)
    && (s.detached.Some? ==> s.b.pc == BIdle && AwaitsBridge(s.w.pc) && s.b.gen < s.w.gen)
  }

  /** A region with room for a meta and some payload, and whose size is a positive 32-bit number. */
  predicate Sized(data: Bytes) {
    META_ZONE + 4 < |data| < I32_LIMIT
  }

  /** The bridge is in the middle of emitting something. */
  predicate Emits(pc: BridgePc) {
    pc.BStore? || pc == BWords || pc == BFlip || pc == BAwait
  }

  /** The windows being emitted are cut for the region in use. */
  predicate Cut(b: Bridge, data: Bytes) {
    0 < b.ex.cap && (Emits(b.pc) ==> b.ex.cap == PayloadCapacity(|data|))
  }

  /** Bookkeeping that no single step can upset. */
  ghost predicate Books(c: Config, s: State) {
    && Sized(s.data) && Cut(s.b, s.data) && Announced(s)
    && s.w.gen == |s.rpcs| < I32_LIMIT && s.b.gen == |s.dispatched|
    && s.b.gen <= s.w.gen
    && (s.w.pc == User || 0 < s.w.gen)
    && (s.w.gen > 0 ==> s.w.req == s.rpcs[s.w.gen - 1].req)
    && (s.b.gen > 0 ==> s.b.ex.req == s.rpcs[s.b.gen - 1].req)
    && (forall j | 0 <= j < |s.rpcs| :: s.rpcs[j].req.header.gen == j + 1)
    && (forall j | 0 <= j < |s.dispatched| :: s.dispatched[j] == s.rpcs[j].req)
    && s.cgen == (if s.w.pc.Fill? || s.w.pc == PublishGen then s.w.gen - 1 else s.w.gen)
  }

  /** Suspended generators are streams without an outcome; the current one is not also running. */
  ghost predicate LiveOk(rpcs: seq<Rpc>, live: set<nat>, w: Worker) {
    && (forall g | g in live ::
          1 <= g <= |rpcs| && rpcs[g - 1].outcome == Open && rpcs[g - 1].req.header.kind == ServerStream)
    && (w.gen in live ==> w.pc == User)
  }

  /** Every caller's view is true to its response, and the running call has no outcome yet. */
  ghost predicate Log(c: Config, rpcs: seq<Rpc>, w: Worker) {
    && (forall j | 0 <= j < |rpcs| :: Faithful(rpcs[j], c.world(j + 1, rpcs[j].req)))
    && (w.pc != User && w.pc != Reset && w.gen == |rpcs| > 0 ==> rpcs[w.gen - 1].outcome == Open)
  }

  /** What the current caller has been handed so far. */
  function Got(s: State): seq<Bytes> {
    if 1 <= s.w.gen <= |s.rpcs| then s.rpcs[s.w.gen - 1].got else []
  }

  /** The part of a state the handshake depends on; `got` is what the current caller has. */
  datatype View = View(
    state: Word, length: int, status: int, data: Bytes, nudges: nat, w: Worker, b: Bridge,
    got: seq<Bytes>, suspended: bool)

  /** Nudges posted; an announcement is not one. */
  function Nudges(posted: seq<Message>): nat {
    if posted != [] && posted[0].Announce? then |posted| - 1 else |posted|
  }

  function ViewOf(s: State): View {
    View(s.state, s.length, s.status, s.data, Nudges(s.posted), s.w, s.b, Got(s), s.w.gen in s.live)
  }

  /** Between payloads: nothing of the current one has been collected. */
  predicate Fresh(l: Collector) {
    !l.mid && l.parts == []
  }

  predicate Quiet(pc: BridgePc) {
    pc == BIdle || pc == BEntry || pc == BLeave
  }

  predicate Streams(x: Exchange) {
    x.req.header.kind == ServerStream
  }

  /** The bridge is emitting message `x.msg` of its response; messages before it were delivered. */
  ghost predicate Emitting(x: Exchange, delivered: seq<Bytes>) {
    && x.out == Chunk && x.resp.Answers?
    && x.sent <= |x.msg| && (x.sent > 0 ==> x.sent < |x.msg|)
    && (if Streams(x) then
          && x.i < |x.resp.chunks| && x.msg == x.resp.chunks[x.i] != [] && delivered == NonEmpty(x.resp.chunks[..x.i])
          && x.first == (delivered == [])
        else
          x.first && x.resp.ending == Done && x.msg == Flatten(x.resp.chunks) && delivered == [])
  }

  /** Inside a payload the worker has collected a prefix, and a unary call remembers its context. */
  ghost predicate Collected(l: Collector, x: Exchange, upTo: nat) {
    && upTo <= |x.msg| && l.parts == x.msg[..upTo]
    && l.mid == (upTo > 0)
    && (l.mid && !Streams(x) ==> l.head == Some(HeadOf(x.resp)) && l.status == StatusOf(x.resp))
  }

  /** What is in `x.out` has not reached the worker, everything before it has. */
  ghost predicate Sending(x: Exchange, l: Collector, got: seq<Bytes>) {
    match x.out
    case Chunk => Emitting(x, got) && Collected(l, x, x.sent)
    case EndOfStream =>
      Fresh(l) && Streams(x) && x.resp.Answers? && x.resp.ending == Done && got == NonEmpty(x.resp.chunks)
    case Failure(e) => Fresh(l) && FailsWith(x.resp, got, x.req.header.kind, e)
  }

  /** The region starts with the first `n` bytes of `image`. */
  ghost predicate Holds(data: Bytes, image: Bytes, n: nat) {
    n <= |image| <= |data| && data[..n] == image[..n]
  }

  ghost predicate Stored(data: Bytes, image: Bytes) {
    Holds(data, image, |image|)
  }

  /** The two words describe what the bridge publishes. */
  ghost predicate Words(c: Config, x: Exchange, length: int, status: int) {
    length == |Image(c, x)| && (x.out == Chunk ==> status == StatusOf(x.resp))
  }

  /** The body of the current response is being read. */
  ghost predicate Reading(x: Exchange, l: Collector, got: seq<Bytes>) {
    && Fresh(l) && x.resp.Answers? && x.i <= |x.resp.chunks|
    && (if Streams(x) then got == NonEmpty(x.resp.chunks[..x.i]) && x.first == (got == [])
        else x.first && got == [])
  }

  /** The window was read; the bridge waits for an ack. */
  ghost predicate Consumed(c: Config, x: Exchange, l: Collector, got: seq<Bytes>) {
    if More(x) then Emitting(x, got) && Collected(l, x, NextSent(x)) else Yielded(x, l, got)
  }

  /** A whole chunk of a stream was handed over. */
  ghost predicate Yielded(x: Exchange, l: Collector, got: seq<Bytes>) {
    && Streams(x) && Fresh(l) && x.resp.Answers? && x.out == Chunk
    && x.i < |x.resp.chunks| && got == NonEmpty(x.resp.chunks[..x.i + 1]) != []
  }

  /** The exchange runs for the worker's current request, against the world's response to it. */
  ghost predicate Current(c: Config, w: Worker, b: Bridge) {
    b.gen == w.gen && b.ex.resp == c.world(b.gen, b.ex.req)
  }

  /** The bridge owns the region and works on the current exchange. */
  ghost predicate Working(c: Config, v: View) {
    && v.b.gen == v.w.gen
    && (v.state == REQ_READY || v.state == CHUNK_ACK)
    && match v.b.pc
       case BFetch => Fresh(v.w.col) && v.b.ex.i == 0 && v.b.ex.first && v.got == []
       case BBody => Current(c, v.w, v.b) && Reading(v.b.ex, v.w.col, v.got)
       case BStore(off) =>
         && Current(c, v.w, v.b) && Sending(v.b.ex, v.w.col, v.got)
         && v.b.ex.out != EndOfStream && Holds(v.data, Image(c, v.b.ex), off)
       case BWords => Current(c, v.w, v.b) && Sending(v.b.ex, v.w.col, v.got) && Stored(v.data, Image(c, v.b.ex))
       case BFlip =>
         && Current(c, v.w, v.b) && Sending(v.b.ex, v.w.col, v.got)
         && Stored(v.data, Image(c, v.b.ex)) && Words(c, v.b.ex, v.length, v.status)
       case _ => false
  }

  /** Published and not read yet. */
  ghost predicate Unread(c: Config, v: View) {
    && Current(c, v.w, v.b) && Sending(v.b.ex, v.w.col, v.got)
    && Stored(v.data, Image(c, v.b.ex)) && Words(c, v.b.ex, v.length, v.status)
    && v.state == WordOf(v.b.ex.out)
    && (if AwaitsAck(v.b.ex) then v.b.pc == BAwait else Quiet(v.b.pc))
  }

  /** A window was read and the bridge waits for the ack. */
  ghost predicate AckDue(c: Config, v: View) {
    Current(c, v.w, v.b) && v.b.pc == BAwait && Consumed(c, v.b.ex, v.w.col, v.got)
  }

  ghost predicate RequestStored(c: Config, v: View) {
    Stored(v.data, EncodeRequest(c.codec, v.w.req))
  }

  /** A request is published and not dispatched; somebody is going to look at it. */
  ghost predicate Pending(c: Config, v: View) {
    && v.b.gen + 1 == v.w.gen
    && v.state == REQ_READY
    && Fresh(v.w.col) && v.got == []
    && RequestStored(c, v)
    && (Quiet(v.b.pc) || v.b.pc == BAwait || v.b.pc == BRead)
    && (v.b.pc == BAwait ==> !More(v.b.ex))
    && (v.b.pc == BIdle ==> v.w.pc == PostNudge || v.nudges > 0)
  }

  /** No exchange is running: idle, or a stream is suspended after a chunk. */
  ghost predicate Resting(c: Config, v: View) {
    && (v.state == IDLE || v.state == RESP_CHUNK)
    && (Quiet(v.b.pc) || (v.b.pc == BAwait && !More(v.b.ex)))
    && (v.state == RESP_CHUNK ==> v.b.pc == BAwait)
  }

  /** A request is being written; the bridge has served all earlier ones. */
  ghost predicate Writing(c: Config, v: View) {
    Resting(c, v) && v.b.gen + 1 == v.w.gen && Fresh(v.w.col) && v.got == []
  }

  ghost predicate Phase(c: Config, v: View) {
    match v.w.pc
    case User =>
      && Resting(c, v) && v.b.gen == v.w.gen
      && (if v.suspended then v.state == RESP_CHUNK && AckDue(c, v) else v.state == IDLE)
    case Fill(off) => Writing(c, v) && Holds(v.data, EncodeRequest(c.codec, v.w.req), off)
    case PublishGen => Writing(c, v) && RequestStored(c, v)
    case PublishReq => Writing(c, v) && RequestStored(c, v)
    case PostNudge => Pending(c, v) || (Working(c, v) && v.state == REQ_READY) || Unread(c, v)
    case Wait(on) =>
      || (on == REQ_READY && Pending(c, v))
      || (Working(c, v) && v.state == on)
      || (on == CHUNK_ACK && v.state == on && AckDue(c, v))
      || ((on == REQ_READY || on == CHUNK_ACK) && Unread(c, v))
    case ReadWindow =>
      Unread(c, v) && v.state == RESP_CHUNK && (!Streams(v.b.ex) ==> v.w.col.status == StatusOf(v.b.ex.resp))
    case ReadError => Unread(c, v) && v.state == RESP_ERROR
    case SendAck => v.state == RESP_CHUNK && AckDue(c, v)
    case Reset => v.b.gen == v.w.gen && Quiet(v.b.pc) && v.state != REQ_READY
  }

  /** Every call without an outcome is suspended or running. */
  ghost predicate Accounted(rpcs: seq<Rpc>, live: set<nat>, w: Worker) {
    forall j | 0 <= j < |rpcs| && rpcs[j].outcome == Open ::
      j + 1 in live || (j + 1 == w.gen && w.pc != User && w.pc != Reset)
  }

  /** Everything but the handshake. */
  ghost predicate Ledger(c: Config, s: State) {
    Books(c, s) && LiveOk(s.rpcs, s.live, s.w) && Log(c, s.rpcs, s.w) && Accounted(s.rpcs, s.live, s.w)
  }

  ghost predicate Inv(c: Config, s: State) {
    Ledger(c, s) && Phase(c, ViewOf(s))
  }

  // ---- initial states ----------------------------------------------------------------------

  lemma InitInv(c: Config)
    requires ValidConfig(c)
    ensures Inv(c, Init(c))
  {
  }

  // ---- calls and generators -----------------------------------------------------------------

  lemma StartInv(c: Config, s: State, a: Action)
    requires ValidConfig(c) && Inv(c, s) && a.Start? && Enabled(c, s, a) && Modest(c, s, a)
    ensures Inv(c, Apply(c, s, a))
  {
    assert s.b.gen == s.w.gen;
    StartAnnounces(c, s, a);
    StartLogs(c, s, a);
    StartPhase(c, s, a);
  }

  lemma StartLogs(c: Config, s: State, a: Action)
    requires Ledger(c, s) && a.Start? && Enabled(c, s, a)
    ensures var t := Apply(c, s, a);
            LiveOk(t.rpcs, t.live, t.w) && Log(c, t.rpcs, t.w) && Accounted(t.rpcs, t.live, t.w)
  {
    var r, t := RequestOf(s, a), Apply(c, s, a);
    assert t.rpcs == s.rpcs + [Rpc(r, [], Open)];
    assert forall j | 0 <= j < |s.rpcs| :: t.rpcs[j] == s.rpcs[j];
    assert Faithful(t.rpcs[|s.rpcs|], c.world(|s.rpcs| + 1, r));
  }

  lemma StartPhase(c: Config, s: State, a: Action)
    requires Phase(c, ViewOf(s)) && a.Start? && Enabled(c, s, a) && s.w.gen == |s.rpcs|
    requires |EncodeRequest(c.codec, RequestOf(s, a))| <= |Apply(c, s, a).data|
    ensures Phase(c, ViewOf(Apply(c, s, a)))
  {
    assert Got(Apply(c, s, a)) == [];
  }

  /** Starting a call leaves the region alone, or replaces it while the bridge rests. */
  lemma StartAnnounces(c: Config, s: State, a: Action)
    requires Books(c, s) && a.Start? && Enabled(c, s, a) && Modest(c, s, a) && s.b.gen == s.w.gen
    ensures var t := Apply(c, s, a);
            Books(c, t) && t.w.req == RequestOf(s, a) && |EncodeRequest(c.codec, t.w.req)| <= |t.data|
  {
    assert s.w.pc == User && s.detached.None?;
    StartRegion(c, s, a);
    StartBooks(c, s, Apply(c, s, a), RequestOf(s, a));
  }

  lemma StartRegion(c: Config, s: State, a: Action)
    requires a.Start? && Roomy(c, s, RequestOf(s, a)) && s.w.pc == User && s.detached.None?
    requires Sized(s.data) && Cut(s.b, s.data) && Announced(s) && s.b.gen == s.w.gen
    ensures var t, r := Apply(c, s, a), RequestOf(s, a);
            && Sized(t.data) && Cut(t.b, t.data) && Announced(t) && |EncodeRequest(c.codec, r)| <= |t.data|
            && t.w == Worker(Fill(0), s.w.gen + 1, r, NOTHING) && t.rpcs == s.rpcs + [Rpc(r, [], Open)]
            && t.b == s.b && t.dispatched == s.dispatched && t.cgen == s.cgen
  {
  }

  lemma StartBooks(c: Config, s: State, t: State, r: Request)
    requires Books(c, s) && s.w.pc == User && s.w.gen + 1 < I32_LIMIT && r.header.gen == s.w.gen + 1
    requires Sized(t.data) && Cut(t.b, t.data) && Announced(t)
    requires t.w == Worker(Fill(0), s.w.gen + 1, r, NOTHING) && t.rpcs == s.rpcs + [Rpc(r, [], Open)]
    requires t.b == s.b && t.dispatched == s.dispatched && t.cgen == s.cgen
    ensures Books(c, t)
  {
  }

  /** `t` differs from `s` in what is recorded for generation g, which stays faithful. */
  ghost predicate EntryChanged(c: Config, s: State, t: State, g: nat) {
    && 1 <= g <= |s.rpcs| == |t.rpcs|
    && t.rpcs == s.rpcs[g - 1 := t.rpcs[g - 1]]
    && t.rpcs[g - 1].req == s.rpcs[g - 1].req
    && Faithful(t.rpcs[g - 1], c.world(g, t.rpcs[g - 1].req))
  }

  lemma EntryBooks(c: Config, s: State, t: State, g: nat)
    requires Books(c, s) && EntryChanged(c, s, t, g)
    requires t.posted == s.posted && t.detached == s.detached && (t.w.pc == s.w.pc || s.detached.None?)
    requires t.w.gen == s.w.gen && t.w.req == s.w.req && t.b == s.b && |t.data| == |s.data|
    requires t.dispatched == s.dispatched && t.cgen == s.cgen
    requires t.w.pc == User || s.w.pc != User
    requires (t.w.pc.Fill? || t.w.pc == PublishGen) == (s.w.pc.Fill? || s.w.pc == PublishGen)
    ensures Books(c, t)
  {
    assert forall j | 0 <= j < |s.rpcs| :: t.rpcs[j].req == s.rpcs[j].req;
  }

  lemma EntryLog(c: Config, s: State, t: State, g: nat)
    requires Log(c, s.rpcs, s.w) && EntryChanged(c, s, t, g)
    requires t.w.gen == s.w.gen
    requires t.w.pc == User || t.w.pc == Reset || (t.w.pc == s.w.pc && (g == s.w.gen ==> t.rpcs[g - 1].outcome == Open))
    ensures Log(c, t.rpcs, t.w)
  {
    forall j | 0 <= j < |t.rpcs| ensures Faithful(t.rpcs[j], c.world(j + 1, t.rpcs[j].req)) {
      if j != g - 1 {
        assert t.rpcs[j] == s.rpcs[j];
      }
    }
  }

  /** Recording how an abandoned stream ended keeps the logs. */
  lemma OutcomeLedger(c: Config, s: State, t: State, g: nat, o: Outcome)
    requires Ledger(c, s) && g in s.live && (o == Stale || o == Closed)
    requires t == SetOutcome(s, g, o).(live := s.live - {g}, state := t.state)
    ensures Ledger(c, t) && Got(t) == Got(s)
  {
    OutcomeEntry(c, s, t, g, o);
    EntryLedger(c, s, t, g);
    OutcomeGot(s, t, g, o);
  }

  lemma OutcomeGot(s: State, t: State, g: nat, o: Outcome)
    requires t == SetOutcome(s, g, o).(live := s.live - {g}, state := t.state)
    ensures Got(t) == Got(s)
  {
  }

  lemma EntryLedger(c: Config, s: State, t: State, g: nat)
    requires Ledger(c, s) && EntryChanged(c, s, t, g)
    requires t == s.(rpcs := t.rpcs, live := s.live - {g}, state := t.state)
    requires t.rpcs[g - 1].outcome != Open && (g == s.w.gen ==> s.w.pc == User)
    ensures Ledger(c, t)
  {
    EntryBooks(c, s, t, g);
    EntryLogs(c, s, t, g);
  }

  lemma OutcomeEntry(c: Config, s: State, t: State, g: nat, o: Outcome)
    requires LiveOk(s.rpcs, s.live, s.w) && Log(c, s.rpcs, s.w) && g in s.live && (o == Stale || o == Closed)
    requires t == SetOutcome(s, g, o).(live := s.live - {g}, state := t.state)
    ensures EntryChanged(c, s, t, g) && t.rpcs[g - 1].outcome == o
    ensures t == s.(rpcs := t.rpcs, live := s.live - {g}, state := t.state)
    ensures g == s.w.gen ==> s.w.pc == User
  {
    assert Faithful(s.rpcs[g - 1], c.world(g - 1 + 1, s.rpcs[g - 1].req));
    StreamMayStop(s.rpcs[g - 1], c.world(g, s.rpcs[g - 1].req), o);
  }

  lemma EntryLogs(c: Config, s: State, t: State, g: nat)
    requires LiveOk(s.rpcs, s.live, s.w) && Log(c, s.rpcs, s.w) && Accounted(s.rpcs, s.live, s.w)
    requires EntryChanged(c, s, t, g) && t.rpcs[g - 1].outcome != Open && (g == s.w.gen ==> s.w.pc == User)
    requires t.w == s.w && t.live == s.live - {g}
    ensures LiveOk(t.rpcs, t.live, t.w) && Log(c, t.rpcs, t.w) && Accounted(t.rpcs, t.live, t.w)
  {
    EntryLog(c, s, t, g);
    EntryLive(s, t, g);
    EntryAccounted(s, t, g);
  }

  /** An entry that was given an outcome, or whose generator is suspended, is accounted for. */
  lemma EntryAccounted(s: State, t: State, g: nat)
    requires Accounted(s.rpcs, s.live, s.w) && 1 <= g <= |s.rpcs| && |t.rpcs| == |s.rpcs|
    requires t.rpcs == s.rpcs[g - 1 := t.rpcs[g - 1]]
    requires t.w.gen == s.w.gen && t.live - {g} == s.live - {g}
    requires t.rpcs[g - 1].outcome == Open ==> g in t.live
    requires g == s.w.gen || t.w == s.w
    ensures Accounted(t.rpcs, t.live, t.w)
  {
    forall j | 0 <= j < |t.rpcs| && t.rpcs[j].outcome == Open
      ensures j + 1 in t.live || (j + 1 == t.w.gen && t.w.pc != User && t.w.pc != Reset)
    {
      if j != g - 1 {
        assert t.rpcs[j] == s.rpcs[j];
        assert j + 1 in s.live - {g} ==> j + 1 in t.live - {g};
      }
    }
  }

  lemma StreamMayStop(p: Rpc, r: Response, o: Outcome)
    requires Faithful(p, r) && p.req.header.kind == ServerStream && (o == Stale || o == Closed || o == Open)
    ensures Faithful(p.(outcome := o), r)
  {
  }

  lemma EntryLive(s: State, t: State, g: nat)
    requires LiveOk(s.rpcs, s.live, s.w) && 1 <= g <= |s.rpcs| && |t.rpcs| == |s.rpcs|
    requires t.rpcs == s.rpcs[g - 1 := t.rpcs[g - 1]]
    requires t.live == s.live - {g} && t.w == s.w
    ensures LiveOk(t.rpcs, t.live, t.w)
  {
    forall h | h in t.live ensures 1 <= h <= |t.rpcs| && t.rpcs[h - 1] == s.rpcs[h - 1] {
      assert h in s.live;
    }
  }

  lemma ResumePhase(c: Config, s: State, g: nat)
    requires Inv(c, s) && Enabled(c, s, Resume(g)) && s.cgen == g
    ensures Phase(c, ViewOf(Apply(c, s, Resume(g))))
  {
    assert s.cgen == s.w.gen;
    ResumeShape(c, s, g);
    ResumeView(c, ViewOf(s), ViewOf(Apply(c, s, Resume(g))));
  }

  lemma ResumeShape(c: Config, s: State, g: nat)
    requires g in s.live && s.w.pc == User && s.cgen == g == s.w.gen
    ensures var v := ViewOf(s);
            v.suspended && ViewOf(Apply(c, s, Resume(g))) == v.(w := v.w.(pc := SendAck), suspended := false)
  {
  }

  lemma ResumeView(c: Config, v: View, u: View)
    requires Phase(c, v) && v.suspended && v.w.pc == User
    requires u == v.(w := v.w.(pc := SendAck), suspended := false)
    ensures Phase(c, u)
  {
  }

  /** The resumed call is running again. */
  lemma ResumeLogs(c: Config, rpcs: seq<Rpc>, live: set<nat>, w: Worker)
    requires LiveOk(rpcs, live, w) && Log(c, rpcs, w) && Accounted(rpcs, live, w) && w.gen in live && w.gen == |rpcs|
    ensures var u := w.(pc := SendAck);
            LiveOk(rpcs, live - {w.gen}, u) && Log(c, rpcs, u) && Accounted(rpcs, live - {w.gen}, u)
  {
  }

  lemma ResumeBooks(c: Config, s: State)
    requires Books(c, s) && s.w.pc == User && 0 < s.w.gen
    ensures s.cgen == s.w.gen == |s.rpcs|
    ensures Books(c, s.(w := s.w.(pc := SendAck), live := s.live - {s.w.gen}))
  {
  }

  lemma ResumeLedger(c: Config, s: State, g: nat)
    requires Ledger(c, s) && Enabled(c, s, Resume(g)) && s.cgen == g
    ensures Ledger(c, Apply(c, s, Resume(g)))
  {
    ResumeBooks(c, s);
    ResumeLogs(c, s.rpcs, s.live, s.w);
  }

  lemma ResumeInv(c: Config, s: State, g: nat)
    requires Inv(c, s) && Enabled(c, s, Resume(g))
    ensures Inv(c, Apply(c, s, Resume(g)))
  {
    if s.cgen == g {
      ResumePhase(c, s, g);
      ResumeLedger(c, s, g);
    } else {
      OutcomeLedger(c, s, Apply(c, s, Resume(g)), g, Stale);
      assert ViewOf(Apply(c, s, Resume(g))) == ViewOf(s);
    }
  }

  lemma ClosePhase(c: Config, s: State, g: nat)
    requires Inv(c, s) && Enabled(c, s, Close(g)) && s.cgen == g
    ensures Phase(c, ViewOf(Apply(c, s, Close(g))))
  {
    OutcomeGot(s, Apply(c, s, Close(g)), g, Closed);
    CloseView(c, s, g);
    CloseIdles(c, ViewOf(s), ViewOf(Apply(c, s, Close(g))));
  }

  lemma CloseView(c: Config, s: State, g: nat)
    requires Books(c, s) && LiveOk(s.rpcs, s.live, s.w) && g in s.live && s.cgen == g
    requires Got(Apply(c, s, Close(g))) == Got(s)
    ensures ViewOf(Apply(c, s, Close(g))) == ViewOf(s).(state := IDLE, suspended := false)
    ensures s.w.pc == User || s.w.pc.Fill? || s.w.pc == PublishGen
  {
  }

  lemma CloseIdles(c: Config, v: View, u: View)
    requires Phase(c, v) && (v.w.pc == User || v.w.pc.Fill? || v.w.pc == PublishGen)
    requires u == v.(state := IDLE, suspended := false)
    ensures Phase(c, u)
  {
  }

  /** Closing a generator whose request is no longer the current one is not visible to the protocol. */
  lemma CloseStalePhase(c: Config, s: State, g: nat)
    requires Inv(c, s) && Enabled(c, s, Close(g)) && s.cgen != g
    ensures Phase(c, ViewOf(Apply(c, s, Close(g))))
  {
    OutcomeGot(s, Apply(c, s, Close(g)), g, Closed);
    CloseUnseen(c, s, g);
  }

  lemma CloseUnseen(c: Config, s: State, g: nat)
    requires Books(c, s) && LiveOk(s.rpcs, s.live, s.w) && g in s.live && s.cgen != g
    requires Got(Apply(c, s, Close(g))) == Got(s)
    ensures ViewOf(Apply(c, s, Close(g))) == ViewOf(s)
  {
  }

  lemma CloseInv(c: Config, s: State, g: nat)
    requires Inv(c, s) && Enabled(c, s, Close(g))
    ensures Inv(c, Apply(c, s, Close(g)))
  {
    OutcomeLedger(c, s, Apply(c, s, Close(g)), g, Closed);
    if s.cgen == g {
      ClosePhase(c, s, g);
    } else {
      CloseStalePhase(c, s, g);
    }
  }

  /** A nudge changes neither the exchange nor what the worker has. */
  lemma NudgePhase(c: Config, v: View, u: View)
    requires Phase(c, v) && v.nudges > 0 && v.b.pc in {BIdle, BFetch, BBody, BAwait}
    requires u == v.(nudges := v.nudges - 1, b := if v.b.pc == BIdle then v.b.(pc := BEntry) else v.b)
    ensures Phase(c, u)
  {
  }

  lemma FirstIsNudge(posted: seq<Message>)
    requires posted != [] && OnlyNudges(posted)
    ensures posted[0] == Nudge && OnlyNudges(posted[1..])
    ensures Nudges(posted) == |posted| && Nudges(posted[1..]) == |posted| - 1
  {
  }

  lemma DeliverPhase(c: Config, s: State)
    requires Phase(c, ViewOf(s)) && Announced(s) && Enabled(c, s, DeliverMessage)
    ensures Phase(c, ViewOf(Apply(c, s, DeliverMessage)))
  {
    if s.detached.Some? {
      assert ViewOf(Apply(c, s, DeliverMessage)) == ViewOf(s);
    } else {
      FirstIsNudge(s.posted);
      NudgePhase(c, ViewOf(s), ViewOf(Apply(c, s, DeliverMessage)));
    }
  }

  lemma DeliverBooks(c: Config, s: State)
    requires Books(c, s) && Enabled(c, s, DeliverMessage)
    ensures Books(c, Apply(c, s, DeliverMessage))
  {
    if s.detached.None? {
      FirstIsNudge(s.posted);
    }
  }

  lemma DeliverLedger(c: Config, s: State)
    requires Ledger(c, s) && Enabled(c, s, DeliverMessage)
    ensures Ledger(c, Apply(c, s, DeliverMessage))
  {
    DeliverBooks(c, s);
    var t := Apply(c, s, DeliverMessage);
    assert t.rpcs == s.rpcs && t.live == s.live && t.w == s.w;
  }

  lemma DeliverInv(c: Config, s: State)
    requires Inv(c, s) && Enabled(c, s, DeliverMessage)
    ensures Inv(c, Apply(c, s, DeliverMessage))
  {
    DeliverLedger(c, s);
    DeliverPhase(c, s);
  }

  // ---- the bridge's steps --------------------------------------------------------------------

  predicate Busy(pc: BridgePc) {
    pc == BFetch || pc == BBody || pc.BStore? || pc == BWords || pc == BFlip
  }

  /** While the bridge works on a response the worker is parked, or about to park. */
  lemma BusyMeansWorking(c: Config, v: View)
    requires Phase(c, v) && Busy(v.b.pc)
    ensures Working(c, v) && (v.w.pc == Wait(v.state) || (v.w.pc == PostNudge && v.state == REQ_READY))
  {
  }

  /** A message starts: nothing of it was sent, and nothing of it was collected. */
  lemma EmitStarts(x: Exchange, y: Exchange, l: Collector, got: seq<Bytes>, msg: Bytes)
    requires Reading(x, l, got) && y == x.(out := Chunk, msg := msg, sent := 0, cap := y.cap)
    requires if Streams(x) then x.i < |x.resp.chunks| && msg == x.resp.chunks[x.i] != []
             else x.resp.ending == Done && msg == Flatten(x.resp.chunks)
    ensures Sending(y, l, got)
  {
    assert y.msg[..0] == [];
  }

  /** The status, the headers and `ok` go with the first window of a response, and with no other. */
  lemma ContextOnce(x: Exchange, l: Collector, got: seq<Bytes>)
    requires Sending(x, l, got) && x.out == Chunk
    ensures NextWindow(x).meta.head == if got == [] && x.sent == 0 then Some(HeadOf(x.resp)) else None
  {
  }

  /** What the bridge publishes fits the region. */
  lemma ImageFits(c: Config, x: Exchange, n: nat, l: Collector, got: seq<Bytes>, size: nat)
    requires ValidConfig(c) && x.resp == c.world(n, x.req) && Sending(x, l, got)
    requires META_ZONE + 4 < size && x.cap == PayloadCapacity(size)
    ensures |Image(c, x)| <= size
  {
    assert MetasFit(c.codec, c.world(n, x.req));
    match x.out
    case Chunk =>
      var head := if x.first then Some(HeadOf(x.resp)) else None;
      var m := WindowMeta(head, |x.msg|, x.cap, x.sent);
      assert MetaFits(c.codec, Window(None, m.more)) && MetaFits(c.codec, Window(Some(HeadOf(x.resp)), m.more));
      WindowFits(c.codec, head, x.msg, x.cap, x.sent);
    case EndOfStream =>
    case Failure(e) =>
      assert MetaFits(c.codec, e);
  }

  lemma FetchStep(c: Config, v: View, u: View)
    requires ValidConfig(c) && Sized(v.data)
    requires Working(c, v) && v.b.pc == BFetch
    requires u == v.(b := Fetched(v.b.(ex := v.b.ex.(resp := c.world(v.b.gen, v.b.ex.req))), PayloadCapacity(|v.data|)))
    ensures Working(c, u)
  {
    var x := u.b.ex;
    if x.resp.Fails? {
      ImageFits(c, x, u.b.gen, u.w.col, u.got, |u.data|);
    } else {
      assert NonEmpty(x.resp.chunks[..0]) == [];
    }
  }

  lemma BodyStep(c: Config, v: View, u: View)
    requires ValidConfig(c) && Sized(v.data)
    requires Working(c, v) && v.b.pc == BBody
    requires u == v.(b := BodyRead(v.b, PayloadCapacity(|v.data|)))
    ensures Working(c, u)
  {
    var x, y := v.b.ex, u.b.ex;
    var chunks := x.resp.chunks;
    if Streams(x) && x.i < |chunks| && chunks[x.i] == [] {
      NonEmptyStep(chunks, x.i);
      assert NonEmpty(chunks[..x.i + 1]) == NonEmpty(chunks[..x.i]);
    } else {
      BodyEmits(v.b, v.w.col, v.got, PayloadCapacity(|v.data|));
      ImageFits(c, y, u.b.gen, u.w.col, u.got, |u.data|);
    }
  }

  /** A chunk, a whole body, the end or the error is emitted. */
  lemma BodyEmits(b: Bridge, l: Collector, got: seq<Bytes>, cap: nat)
    requires Reading(b.ex, l, got)
    requires Streams(b.ex) && b.ex.i < |b.ex.resp.chunks| ==> b.ex.resp.chunks[b.ex.i] != []
    ensures var u := BodyRead(b, cap);
            && Sending(u.ex, l, got) && u.ex.cap == cap
            && u.ex.resp == b.ex.resp && u.ex.req == b.ex.req && u.gen == b.gen
            && u.pc == if u.ex.out == EndOfStream then BWords else BStore(0)
  {
    var x, y := b.ex, BodyRead(b, cap).ex;
    if y.out == Chunk {
      EmitStarts(x, y, l, got, y.msg);
    } else if Streams(x) {
      assert x.resp.chunks[..x.i] == x.resp.chunks;
    }
  }

  lemma StoreStep(c: Config, v: View, u: View)
    requires Working(c, v) && v.b.pc.BStore?
    requires var image, off := Image(c, v.b.ex), v.b.pc.off;
             u == if off < |image| then v.(data := Store(v.data, off, image), b := v.b.(pc := BStore(off + 1)))
                  else v.(b := v.b.(pc := BWords))
    ensures Working(c, u)
  {
    var image, off := Image(c, v.b.ex), v.b.pc.off;
    if off < |image| {
      StoreByte(v.data, image, off);
    }
  }

  lemma StoreByte(data: Bytes, image: Bytes, off: nat)
    requires Holds(data, image, off) && off < |image|
    ensures Holds(Store(data, off, image), image, off + 1)
  {
    var d := Store(data, off, image);
    assert d[..off + 1] == d[..off] + [d[off]];
    assert image[..off + 1] == image[..off] + [image[off]];
    assert d[..off] == data[..off];
  }

  lemma WordsStep(c: Config, v: View, u: View)
    requires Working(c, v) && v.b.pc == BWords
    requires u.b == v.b.(pc := BFlip) && u.length == Int32(|Image(c, v.b.ex)|) && |v.data| < I32_LIMIT
    requires v.b.ex.out == Chunk ==> u.status == StatusOf(v.b.ex.resp)
    requires u == v.(b := u.b, length := u.length, status := u.status)
    ensures Working(c, u)
  {
  }

  lemma FlipStep(c: Config, v: View, u: View)
    requires Working(c, v) && v.b.pc == BFlip
    requires u == v.(state := WordOf(v.b.ex.out), b := v.b.(pc := if AwaitsAck(v.b.ex) then BAwait else BLeave))
    ensures Unread(c, u)
  {
  }

  /** The bridge reads exactly the request the worker stored, and the exchange begins. */
  lemma ReadStep(c: Config, v: View, u: View)
    requires ValidConfig(c) && |v.data| < I32_LIMIT
    requires Pending(c, v) && v.b.pc == BRead
    requires var r := DecodeRequest(c.codec, v.data);
             u == v.(b := Bridge(BFetch, v.b.gen + 1, Exchange(r, v.b.ex.resp, 0, true, [], 0, v.b.ex.cap, v.b.ex.out)))
    ensures Working(c, u) && u.b.ex.req == v.w.req
  {
    var image := EncodeRequest(c.codec, v.w.req);
    assert image <= v.data;
    RequestRoundTrip(c.codec, v.w.req, v.data);
  }

  /** An ack lets the bridge go on with the next window, or with the next chunk. */
  lemma AckStep(c: Config, v: View, u: View)
    requires ValidConfig(c) && Sized(v.data)
    requires AckDue(c, v) && v.state == CHUNK_ACK && Cut(v.b, v.data)
    requires u == v.(b := Acked(v.b, v.state))
    ensures Working(c, u)
  {
    var x, y := v.b.ex, u.b.ex;
    if More(x) {
      assert x.sent < NextSent(x);
      ImageFits(c, y, u.b.gen, u.w.col, u.got, |u.data|);
      assert Holds(u.data, Image(c, y), 0);
    }
  }

  /** Steps of the bridge while it is not working on the current exchange. */
  lemma IdleSteps(c: Config, v: View, u: View)
    requires Phase(c, v) && (v.b.pc == BEntry || v.b.pc == BLeave
                             || (v.b.pc == BAwait && (v.state == IDLE || v.state == REQ_READY)))
    requires u == v.(b := v.b.(pc :=
               if v.b.pc == BAwait then BLeave
               else if v.state != REQ_READY then BIdle
               else if v.b.pc == BEntry then BRead else BEntry))
    ensures Phase(c, u)
  {
  }

  /** Steps after which the bridge still works on the current exchange, or has just published. */
  lemma BusyPhase(c: Config, s: State)
    requires ValidConfig(c) && Sized(s.data) && Cut(s.b, s.data) && s.detached.None?
    requires Phase(c, ViewOf(s)) && Busy(s.b.pc)
    ensures Phase(c, ViewOf(BridgeStep(c, s)))
  {
    var v, u := ViewOf(s), ViewOf(BridgeStep(c, s));
    BusyMeansWorking(c, v);
    BusyStep(c, s);
    BackToPhase(c, v, u);
  }

  lemma BusyStep(c: Config, s: State)
    requires ValidConfig(c) && Sized(s.data) && Cut(s.b, s.data) && s.detached.None?
    requires Working(c, ViewOf(s))
    ensures var u := ViewOf(BridgeStep(c, s)); u.w == s.w && ((Working(c, u) && u.state == s.state) || Unread(c, u))
  {
    var v, u := ViewOf(s), ViewOf(BridgeStep(c, s));
    match s.b.pc {
      case BFetch => FetchStep(c, v, u);
      case BBody => BodyStep(c, v, u);
      case BStore(_) => StoreView(c, s); StoreStep(c, v, u);
      case BWords => WordsStep(c, v, u);
      case BFlip => FlipStep(c, v, u);
    }
  }

  lemma StoreView(c: Config, s: State)
    requires s.b.pc.BStore? && s.detached.None?
    ensures var image, off, v := Image(c, s.b.ex), s.b.pc.off, ViewOf(s);
            ViewOf(BridgeStep(c, s)) ==
              if off < |image| then v.(data := Store(v.data, off, image), b := v.b.(pc := BStore(off + 1)))
              else v.(b := v.b.(pc := BWords))
  {
  }

  lemma BackToPhase(c: Config, v: View, u: View)
    requires v.w.pc == Wait(v.state) || (v.w.pc == PostNudge && v.state == REQ_READY)
    requires v.state == REQ_READY || v.state == CHUNK_ACK
    requires u.w == v.w && ((Working(c, u) && u.state == v.state) || Unread(c, u))
    ensures Phase(c, u)
  {
  }

  lemma AckView(c: Config, v: View, u: View)
    requires ValidConfig(c) && Sized(v.data) && Cut(v.b, v.data)
    requires Phase(c, v) && v.b.pc == BAwait && v.state == CHUNK_ACK && u == v.(b := Acked(v.b, v.state))
    ensures Phase(c, u)
  {
    AckMeansDue(c, v);
    AckStep(c, v, u);
    BackToPhase(c, v, u);
  }

  lemma AckPhase(c: Config, s: State)
    requires ValidConfig(c) && Sized(s.data) && Cut(s.b, s.data)
    requires Phase(c, ViewOf(s)) && s.b.pc == BAwait && s.state == CHUNK_ACK
    ensures Phase(c, ViewOf(BridgeStep(c, s)))
  {
    AckView(c, ViewOf(s), ViewOf(BridgeStep(c, s)));
  }

  lemma GiveUpPhase(c: Config, s: State)
    requires Phase(c, ViewOf(s)) && s.b.pc == BAwait && (s.state == IDLE || s.state == REQ_READY)
    ensures Phase(c, ViewOf(BridgeStep(c, s)))
  {
    GiveUpView(c, s);
    IdleSteps(c, ViewOf(s), ViewOf(BridgeStep(c, s)));
  }

  lemma GiveUpView(c: Config, s: State)
    requires s.b.pc == BAwait && s.state != CHUNK_ACK
    ensures ViewOf(BridgeStep(c, s)) == ViewOf(s).(b := s.b.(pc := BLeave))
  {
  }

  lemma AckMeansDue(c: Config, v: View)
    requires Phase(c, v) && v.b.pc == BAwait && v.state == CHUNK_ACK
    ensures AckDue(c, v) && v.w.pc == Wait(CHUNK_ACK)
  {
  }

  lemma ReadPhase(c: Config, s: State)
    requires ValidConfig(c) && Inv(c, s) && s.b.pc == BRead
    ensures Phase(c, ViewOf(BridgeStep(c, s)))
    ensures BridgeStep(c, s).b.ex.req == s.w.req && s.b.gen + 1 == s.w.gen
  {
    var v, u := ViewOf(s), ViewOf(BridgeStep(c, s));
    ReadMeansPending(c, v);
    ReadStep(c, v, u);
    BackToPhase(c, v, u);
  }

  lemma ReadMeansPending(c: Config, v: View)
    requires Phase(c, v) && v.b.pc == BRead
    ensures Pending(c, v) && (v.w.pc == Wait(REQ_READY) || v.w.pc == PostNudge)
  {
  }

  lemma EntryLeavePhase(c: Config, s: State)
    requires Phase(c, ViewOf(s)) && (s.b.pc == BEntry || s.b.pc == BLeave)
    ensures Phase(c, ViewOf(BridgeStep(c, s)))
  {
    IdleSteps(c, ViewOf(s), ViewOf(BridgeStep(c, s)));
  }

  /** Only reading a request changes what the bridge has on its books. */
  lemma BridgeKeeps(c: Config, s: State)
    requires s.b.pc != BRead && s.detached.None?
    ensures var t := BridgeStep(c, s);
            && t.rpcs == s.rpcs && t.live == s.live && t.w == s.w && t.cgen == s.cgen
            && t.dispatched == s.dispatched && |t.data| == |s.data|
            && t.b.gen == s.b.gen && t.b.ex.req == s.b.ex.req && t.posted == s.posted && t.detached == s.detached
            && (t.b.ex.cap == s.b.ex.cap || t.b.ex.cap == PayloadCapacity(|s.data|))
            && (Emits(t.b.pc) ==> Emits(s.b.pc) || t.b.ex.cap == PayloadCapacity(|s.data|))
  {
  }

  lemma LedgerFrame(c: Config, s: State, t: State)
    requires Ledger(c, s)
    requires t.rpcs == s.rpcs && t.live == s.live && t.w == s.w && t.cgen == s.cgen
    requires t.dispatched == s.dispatched && |t.data| == |s.data|
    requires t.b.gen == s.b.gen && t.b.ex.req == s.b.ex.req && t.posted == s.posted && t.detached == s.detached
    requires Cut(t.b, t.data) && s.detached.None?
    ensures Ledger(c, t)
  {
    BooksFrame(c, s, t);
  }

  lemma BooksFrame(c: Config, s: State, t: State)
    requires Books(c, s)
    requires t.rpcs == s.rpcs && t.w == s.w && t.cgen == s.cgen && t.dispatched == s.dispatched && |t.data| == |s.data|
    requires t.b.gen == s.b.gen && t.b.ex.req == s.b.ex.req && t.posted == s.posted && t.detached == s.detached
    requires Cut(t.b, t.data) && s.detached.None?
    ensures Books(c, t)
  {
  }

  lemma BridgeLedger(c: Config, s: State)
    requires Ledger(c, s) && s.b.pc != BRead && s.b.pc != BIdle
    ensures Ledger(c, BridgeStep(c, s))
  {
    BridgeKeeps(c, s);
    LedgerFrame(c, s, BridgeStep(c, s));
  }

  lemma ReadBooks(c: Config, s: State, t: State, r: Request)
    requires Books(c, s) && s.b.pc == BRead && s.b.gen + 1 == s.w.gen && r == s.w.req
    requires t == s.(b := Bridge(BFetch, s.b.gen + 1, t.b.ex), dispatched := s.dispatched + [r])
    requires t.b.ex.req == r && t.b.ex.cap == s.b.ex.cap
    ensures Books(c, t)
  {
  }

  lemma ReadLedger(c: Config, s: State)
    requires Ledger(c, s) && s.b.pc == BRead
    requires BridgeStep(c, s).b.ex.req == s.w.req && s.b.gen + 1 == s.w.gen
    ensures Ledger(c, BridgeStep(c, s))
  {
    ReadBooks(c, s, BridgeStep(c, s), s.w.req);
  }

  lemma BridgeInv(c: Config, s: State)
    requires ValidConfig(c) && Inv(c, s) && Enabled(c, s, BStep)
    ensures Inv(c, Apply(c, s, BStep))
  {
    if s.b.pc == BRead {
      ReadPhase(c, s);
      ReadLedger(c, s);
    } else {
      BridgeLedger(c, s);
      if s.b.pc == BAwait && s.state == CHUNK_ACK {
        AckPhase(c, s);
      } else if s.b.pc == BAwait {
        GiveUpPhase(c, s);
      } else if Busy(s.b.pc) {
        BusyPhase(c, s);
      } else {
        EntryLeavePhase(c, s);
      }
    }
  }

  // ---- the worker's steps ---------------------------------------------------------------------

  /** Storing one more byte of the request. */
  lemma FillStep(c: Config, v: View, u: View)
    requires Phase(c, v) && v.w.pc.Fill?
    requires var image, off := EncodeRequest(c.codec, v.w.req), v.w.pc.off;
             u == if off < |image| then v.(data := Store(v.data, off, image), w := v.w.(pc := Fill(off + 1)))
                  else v.(w := v.w.(pc := PublishGen))
    ensures Phase(c, u)
  {
    var image, off := EncodeRequest(c.codec, v.w.req), v.w.pc.off;
    if off < |image| {
      StoreByte(v.data, image, off);
    }
  }

  /** Publishing the request, posting the nudge, parking. */
  lemma PublishSteps(c: Config, v: View, u: View)
    requires Phase(c, v)
    requires match v.w.pc
             case PublishGen => u == v.(length := u.length, w := v.w.(pc := PublishReq))
             case PublishReq => u == v.(state := REQ_READY, w := v.w.(pc := PostNudge))
             case PostNudge => u == v.(nudges := v.nudges + 1, w := v.w.(pc := Wait(REQ_READY)))
             case _ => false
    ensures Phase(c, u)
  {
  }

  /** A parked worker wakes only to something published for it. */
  lemma WakeMeansUnread(c: Config, v: View)
    requires Phase(c, v) && v.w.pc.Wait? && v.state != v.w.pc.parkedOn
    ensures Unread(c, v)
  {
  }

  /** What the worker decodes is the window the bridge meant. */
  lemma WindowSeen(c: Config, v: View)
    requires ValidConfig(c) && Unread(c, v) && v.state == RESP_CHUNK
    ensures DecodeWindow(c.codec, v.data, v.length) == (NextWindow(v.b.ex).meta, NextWindow(v.b.ex).payload)
  {
    var x := v.b.ex;
    var w := NextWindow(x);
    var image := Image(c, x);
    assert image <= v.data;
    WindowRoundTrip(c.codec, w.meta, w.payload, v.data);
  }

  lemma ErrorSeen(c: Config, v: View)
    requires ValidConfig(c) && Unread(c, v) && v.state == RESP_ERROR
    ensures v.b.ex.out == Failure(DecodeErrorMeta(c.codec, v.data))
  {
    var e := v.b.ex.out.error;
    assert Image(c, v.b.ex) <= v.data;
    ErrorMetaRoundTrip(c.codec, e, v.data);
  }

  /** The payload of the next window extends what was collected. */
  lemma PartsGrow(c: Config, x: Exchange, l: Collector)
    requires x.sent <= |x.msg| && l.parts == x.msg[..x.sent]
    ensures x.sent <= NextSent(x)
    ensures l.parts + NextWindow(x).payload == x.msg[..NextSent(x)]
  {
    var end := NextSent(x);
    assert Slice(x.msg, x.sent, end) == x.msg[x.sent..end];
  }

  predicate Plain(pc: WorkerPc) {
    Publishing(pc) || pc == PostNudge || pc == SendAck
  }

  lemma PlainPhase(c: Config, s: State)
    requires Phase(c, ViewOf(s)) && (Publishing(s.w.pc) || s.w.pc == PostNudge)
    ensures Phase(c, ViewOf(WorkerStep(c, s)))
  {
    var v, u := ViewOf(s), ViewOf(WorkerStep(c, s));
    PlainView(c, s);
    if s.w.pc.Fill? {
      FillStep(c, v, u);
    } else {
      PublishSteps(c, v, u);
    }
  }

  lemma PlainView(c: Config, s: State)
    requires Publishing(s.w.pc) || s.w.pc == PostNudge
    ensures var v, u := ViewOf(s), ViewOf(WorkerStep(c, s));
            match s.w.pc
            case Fill(off) =>
              var image := EncodeRequest(c.codec, v.w.req);
              u == if off < |image| then v.(data := Store(v.data, off, image), w := v.w.(pc := Fill(off + 1)))
                   else v.(w := v.w.(pc := PublishGen))
            case PublishGen => u == v.(length := u.length, w := v.w.(pc := PublishReq))
            case PublishReq => u == v.(state := REQ_READY, w := v.w.(pc := PostNudge))
            case _ => u == v.(nudges := v.nudges + 1, w := v.w.(pc := Wait(REQ_READY)))
  {
  }

  lemma SendAckPhase(c: Config, s: State)
    requires Phase(c, ViewOf(s)) && s.w.pc == SendAck
    ensures Phase(c, ViewOf(WorkerStep(c, s)))
  {
    SendAckView(c, ViewOf(s), ViewOf(WorkerStep(c, s)));
  }

  lemma SendAckView(c: Config, v: View, u: View)
    requires Phase(c, v) && v.w.pc == SendAck
    requires u == v.(state := CHUNK_ACK, w := v.w.(pc := Wait(CHUNK_ACK)))
    ensures Phase(c, u)
  {
  }

  lemma PlainKeeps(c: Config, s: State)
    requires Plain(s.w.pc)
    ensures var t := WorkerStep(c, s);
            && t.rpcs == s.rpcs && t.live == s.live && t.b == s.b && t.dispatched == s.dispatched
            && |t.data| == |s.data| && t.w.gen == s.w.gen && t.w.req == s.w.req
            && t.detached == s.detached && (t.posted == s.posted || t.posted == s.posted + [Nudge])
            && t.w.pc != User && t.w.pc != Reset
            && t.cgen == (if s.w.pc == PublishGen then Int32(s.w.gen) else s.cgen)
            && (AwaitsBridge(s.w.pc) ==> AwaitsBridge(t.w.pc))
            && ((t.w.pc.Fill? || t.w.pc == PublishGen) <==> s.w.pc.Fill?)
  {
  }

  lemma WorkerFrame(c: Config, s: State, t: State)
    requires Ledger(c, s) && s.w.pc != User && s.w.pc != Reset
    requires t.rpcs == s.rpcs && t.live == s.live && t.b == s.b && t.dispatched == s.dispatched
    requires |t.data| == |s.data| && t.w.gen == s.w.gen && t.w.req == s.w.req
    requires t.detached == s.detached && (t.posted == s.posted || t.posted == s.posted + [Nudge])
    requires t.w.pc != User && t.w.pc != Reset
    requires t.cgen == (if t.w.pc.Fill? || t.w.pc == PublishGen then s.w.gen - 1 else s.w.gen)
    requires s.detached.Some? ==> AwaitsBridge(t.w.pc)
    ensures Ledger(c, t)
  {
  }

  lemma PlainLedger(c: Config, s: State)
    requires Ledger(c, s) && Plain(s.w.pc)
    ensures Ledger(c, WorkerStep(c, s))
  {
    PlainKeeps(c, s);
    WorkerFrame(c, s, WorkerStep(c, s));
  }

  /** The ledger after the entry of the running call was updated. */
  lemma CallLedger(c: Config, s: State, t: State)
    requires Ledger(c, s) && s.w.pc != User && !Publishing(s.w.pc) && s.detached.None?
    requires s.w.gen !in s.live && EntryChanged(c, s, t, s.w.gen)
    requires t.posted == s.posted && t.detached == s.detached
    requires t.w.gen == s.w.gen && t.w.req == s.w.req && t.b == s.b && t.data == s.data
    requires t.dispatched == s.dispatched && t.cgen == s.cgen
    requires (t.w.pc == Reset && t.live == s.live && t.rpcs[s.w.gen - 1].outcome != Open)
          || (t.w.pc == User && t.live == s.live + {s.w.gen} && t.rpcs[s.w.gen - 1].outcome == Open
              && s.w.req.header.kind == ServerStream)
    ensures Ledger(c, t)
  {
    EntryBooks(c, s, t, s.w.gen);
    EntryLog(c, s, t, s.w.gen);
    EntryAccounted(s, t, s.w.gen);
    CallLive(s, t);
  }

  lemma CallLive(s: State, t: State)
    requires LiveOk(s.rpcs, s.live, s.w) && 1 <= s.w.gen <= |s.rpcs| && |t.rpcs| == |s.rpcs| && t.w.gen == s.w.gen
    requires t.rpcs == s.rpcs[s.w.gen - 1 := t.rpcs[s.w.gen - 1]] && s.w.gen !in s.live
    requires t.live == s.live
          || (t.w.pc == User && t.live == s.live + {s.w.gen} && t.rpcs[s.w.gen - 1].outcome == Open
              && t.rpcs[s.w.gen - 1].req.header.kind == ServerStream)
    ensures LiveOk(t.rpcs, t.live, t.w)
  {
    forall h | h in t.live
      ensures 1 <= h <= |t.rpcs| && t.rpcs[h - 1].outcome == Open && t.rpcs[h - 1].req.header.kind == ServerStream
    {
      if h != s.w.gen {
        assert h in s.live && t.rpcs[h - 1] == s.rpcs[h - 1];
      }
    }
  }

  /** What the books say about the call in progress. */
  lemma RunningCall(c: Config, s: State)
    requires Ledger(c, s) && s.w.pc != User && s.w.pc != Reset
    ensures 1 <= s.w.gen <= |s.rpcs| && s.rpcs[s.w.gen - 1].req == s.w.req && s.rpcs[s.w.gen - 1].outcome == Open
    ensures Got(s) == s.rpcs[s.w.gen - 1].got
    ensures s.w.gen !in s.live
    ensures !AwaitsBridge(s.w.pc) ==> s.detached.None?
    ensures s.b.gen == s.w.gen ==> s.b.ex.req == s.w.req
    ensures Faithful(s.rpcs[s.w.gen - 1], c.world(s.w.gen, s.w.req))
  {
  }

  /** A call ends with an outcome that is true to its response. */
  lemma FinishInv(c: Config, s: State, o: Outcome)
    requires Inv(c, s) && s.w.pc != User && !Publishing(s.w.pc) && s.w.pc != Reset && o != Open
    requires s.b.gen == s.w.gen && Quiet(s.b.pc) && s.state != REQ_READY
    requires Faithful(s.rpcs[s.w.gen - 1].(outcome := o), c.world(s.w.gen, s.w.req))
    ensures Inv(c, Finish(s, o))
  {
    RunningCall(c, s);
    CallLedger(c, s, Finish(s, o));
  }

  /** Waking to a chunk keeps everything but the status a unary call remembers. */
  lemma WakeToChunk(c: Config, v: View, u: View)
    requires Unread(c, v) && v.state == RESP_CHUNK
    requires u == v.(w := v.w.(pc := ReadWindow, col := if v.w.col.mid then v.w.col else v.w.col.(status := v.status)))
    ensures Phase(c, u)
  {
  }

  lemma WakeLedger(c: Config, s: State)
    requires Ledger(c, s) && s.w.pc.Wait? && (s.state == RESP_CHUNK || s.state == RESP_ERROR) && s.b.gen == s.w.gen
    ensures Ledger(c, Observe(s))
  {
    WorkerFrame(c, s, Observe(s));
  }

  lemma WakePhase(c: Config, s: State)
    requires Phase(c, ViewOf(s)) && Enabled(c, s, WStep) && s.w.pc.Wait?
             && (s.state == RESP_CHUNK || s.state == RESP_ERROR)
    ensures Phase(c, ViewOf(Observe(s)))
  {
    var v, u := ViewOf(s), ViewOf(Observe(s));
    WakeMeansUnread(c, v);
    if s.state == RESP_CHUNK {
      WakeToChunk(c, v, u);
    } else {
      assert Unread(c, u);
    }
  }

  lemma EndSeen(c: Config, s: State)
    requires Inv(c, s) && s.w.pc.Wait? && s.state == RESP_END && Unread(c, ViewOf(s))
    ensures !s.w.col.mid && s.w.req.header.kind == ServerStream
    ensures s.b.gen == s.w.gen && Quiet(s.b.pc)
    ensures Faithful(s.rpcs[s.w.gen - 1].(outcome := Ended), c.world(s.w.gen, s.w.req))
  {
    RunningCall(c, s);
  }

  lemma EndInv(c: Config, s: State)
    requires Inv(c, s) && s.w.pc.Wait? && s.state == RESP_END && Unread(c, ViewOf(s))
    ensures Inv(c, Observe(s))
  {
    EndSeen(c, s);
    FinishInv(c, s, Ended);
  }

  lemma WordsSeen(c: Config, v: View)
    requires Unread(c, v)
    ensures v.state == RESP_CHUNK || v.state == RESP_ERROR || v.state == RESP_END
  {
  }

  lemma ObserveInv(c: Config, s: State)
    requires Inv(c, s) && Enabled(c, s, WStep) && s.w.pc.Wait?
    ensures Inv(c, Observe(s))
  {
    WakeMeansUnread(c, ViewOf(s));
    WordsSeen(c, ViewOf(s));
    if s.state == RESP_END {
      EndInv(c, s);
    } else {
      WakePhase(c, s);
      WakeLedger(c, s);
    }
  }

  // ---- reading what was published ------------------------------------------------------------

  /** A window that is not the last one: the worker asks for the next. */
  lemma MoreWindows(c: Config, s: State)
    requires ValidConfig(c) && Inv(c, s) && s.w.pc == ReadWindow && More(s.b.ex)
    ensures var t := WorkerStep(c, s);
            && t == s.(w := s.w.(pc := SendAck, col := t.w.col))
            && Phase(c, ViewOf(t))
  {
    WindowSeen(c, ViewOf(s));
    MoreShape(c, s, NextWindow(s.b.ex).meta, NextWindow(s.b.ex).payload);
    MorePhase(c, s, WorkerStep(c, s));
  }

  lemma MorePhase(c: Config, s: State, t: State)
    requires Phase(c, ViewOf(s)) && s.w.pc == ReadWindow && More(s.b.ex) && s.b.ex.cap > 0
    requires var w, l := NextWindow(s.b.ex), s.w.col;
             var head := if l.mid then l.head else w.meta.head;
             t == s.(w := s.w.(pc := SendAck, col := Collector(true, head, l.status, l.parts + w.payload)))
    ensures Phase(c, ViewOf(t))
  {
    MoreView(c, ViewOf(s), ViewOf(t));
  }

  /** What the worker does with a window that asks for another one. */
  lemma MoreShape(c: Config, s: State, meta: Meta, payload: Bytes)
    requires s.w.pc == ReadWindow && DecodeWindow(c.codec, s.data, s.length) == (meta, payload)
    requires meta.Window? && meta.more
    ensures var l := s.w.col;
            var head := if l.mid then l.head else meta.head;
            WorkerStep(c, s) == s.(w := s.w.(pc := SendAck, col := Collector(true, head, l.status, l.parts + payload)))
  {
  }

  lemma MoreView(c: Config, v: View, u: View)
    requires Phase(c, v) && v.w.pc == ReadWindow && More(v.b.ex) && v.b.ex.cap > 0
    requires var w, l := NextWindow(v.b.ex), v.w.col;
             var head := if l.mid then l.head else w.meta.head;
             u == v.(w := v.w.(pc := SendAck, col := Collector(true, head, l.status, l.parts + w.payload)))
    ensures Phase(c, u)
  {
    PartsGrow(c, v.b.ex, v.w.col);
    assert v.b.ex.out == Chunk;
  }

  /** The last window of a unary body: the whole body is returned, with its status and headers. */
  lemma LastUnaryWindow(c: Config, s: State)
    requires ValidConfig(c) && Inv(c, s) && s.w.pc == ReadWindow && !More(s.b.ex) && !Streams(s.b.ex)
    ensures var r := s.b.ex.resp;
            && r.Answers? && s.w.req.header.kind == Unary
            && WorkerStep(c, s) == Finish(s, Returned(r.status, r.head.headers, Flatten(r.chunks)))
  {
    RunningCall(c, s);
    WindowSeen(c, ViewOf(s));
    PartsGrow(c, s.b.ex, s.w.col);
    assert s.b.ex.msg[..|s.b.ex.msg|] == s.b.ex.msg;
  }

  /** The last window of a stream chunk: exactly that chunk is delivered. */
  lemma LastStreamWindow(c: Config, s: State)
    requires ValidConfig(c) && Inv(c, s) && s.w.pc == ReadWindow && !More(s.b.ex) && Streams(s.b.ex)
    ensures var x := s.b.ex;
            && x.resp.Answers? && x.i < |x.resp.chunks| && s.w.req.header.kind == ServerStream
            && WorkerStep(c, s) == HandOver(s, x.resp.chunks[x.i])
            && Got(s) + [x.resp.chunks[x.i]] == NonEmpty(x.resp.chunks[..x.i + 1])
  {
    RunningCall(c, s);
    var x := s.b.ex;
    WindowSeen(c, ViewOf(s));
    PartsGrow(c, x, s.w.col);
    assert x.msg[..|x.msg|] == x.msg;
    NonEmptyStep(x.resp.chunks, x.i);
  }

  lemma UnaryFaithful(c: Config, s: State)
    requires Inv(c, s) && s.w.pc == ReadWindow && !More(s.b.ex) && !Streams(s.b.ex)
    ensures s.b.gen == s.w.gen && Quiet(s.b.pc) && s.state != REQ_READY
    ensures s.b.ex.resp.Answers?
    ensures var r := s.b.ex.resp;
            Faithful(s.rpcs[s.w.gen - 1].(outcome := Returned(r.status, r.head.headers, Flatten(r.chunks))),
                     c.world(s.w.gen, s.w.req))
  {
    RunningCall(c, s);
  }

  /** The exchange whose window is being read is the running call's. */
  lemma ReadingCurrent(c: Config, s: State)
    requires Inv(c, s) && s.w.pc == ReadWindow
    ensures s.b.ex.resp == c.world(s.w.gen, s.w.req) && s.b.ex.resp.Answers? && s.b.gen == s.w.gen
  {
    RunningCall(c, s);
  }

  lemma HandOverInv(c: Config, s: State)
    requires ValidConfig(c) && Inv(c, s) && s.w.pc == ReadWindow && !More(s.b.ex) && Streams(s.b.ex)
    ensures Inv(c, WorkerStep(c, s))
  {
    LastStreamWindow(c, s);
    ReadingCurrent(c, s);
    var chunk := s.b.ex.resp.chunks[s.b.ex.i];
    HandOverLedger(c, s, chunk);
    HandOverPhase(c, s, chunk);
  }

  /** `chunk` is what the response holds next for the caller of the running call. */
  ghost predicate NextForCaller(c: Config, s: State, chunk: Bytes) {
    && s.b.ex.resp == c.world(s.w.gen, s.w.req) && s.b.ex.resp.Answers?
    && s.b.ex.i < |s.b.ex.resp.chunks| && Got(s) + [chunk] == NonEmpty(s.b.ex.resp.chunks[..s.b.ex.i + 1])
  }

  lemma HandOverLedger(c: Config, s: State, chunk: Bytes)
    requires Ledger(c, s) && s.w.pc == ReadWindow && s.w.req.header.kind == ServerStream && NextForCaller(c, s, chunk)
    ensures Ledger(c, HandOver(s, chunk))
  {
    RunningCall(c, s);
    DeliveredEntry(c, s, chunk);
    CallLedger(c, s, HandOver(s, chunk));
  }

  lemma LongerIsFaithful(p: Rpc, r: Response, i: nat, got: seq<Bytes>)
    requires Faithful(p, r) && p.req.header.kind == ServerStream && p.outcome == Open
    requires r.Answers? && i < |r.chunks| && got == NonEmpty(r.chunks[..i + 1])
    ensures Faithful(p.(got := got), r)
  {
    NonEmptyPrefix(r.chunks, i + 1);
  }

  lemma DeliveredEntry(c: Config, s: State, chunk: Bytes)
    requires 1 <= s.w.gen <= |s.rpcs| && s.w.req.header.kind == ServerStream && NextForCaller(c, s, chunk)
    requires var p := s.rpcs[s.w.gen - 1];
             p.req == s.w.req && p.outcome == Open && Faithful(p, c.world(s.w.gen, s.w.req))
    ensures var t := HandOver(s, chunk);
            && EntryChanged(c, s, t, s.w.gen) && t.rpcs[s.w.gen - 1].outcome == Open
            && t == s.(w := s.w.(pc := User, col := NOTHING), live := s.live + {s.w.gen}, rpcs := t.rpcs)
  {
    var g, t := s.w.gen, HandOver(s, chunk);
    LongerIsFaithful(s.rpcs[g - 1], s.b.ex.resp, s.b.ex.i, Got(s) + [chunk]);
    assert t.rpcs[g - 1] == s.rpcs[g - 1].(got := Got(s) + [chunk]);
  }

  lemma HandOverView(c: Config, v: View, u: View, chunk: Bytes)
    requires Phase(c, v) && v.w.pc == ReadWindow && !More(v.b.ex) && Streams(v.b.ex) && v.b.ex.resp.Answers?
    requires v.b.ex.i < |v.b.ex.resp.chunks| && v.got + [chunk] == NonEmpty(v.b.ex.resp.chunks[..v.b.ex.i + 1])
    requires u == v.(w := v.w.(pc := User, col := NOTHING), got := v.got + [chunk], suspended := true)
    ensures Phase(c, u)
  {
  }

  lemma HandOverPhase(c: Config, s: State, chunk: Bytes)
    requires Phase(c, ViewOf(s)) && s.w.pc == ReadWindow && !More(s.b.ex) && Streams(s.b.ex)
    requires 1 <= s.w.gen <= |s.rpcs| && NextForCaller(c, s, chunk)
    ensures Phase(c, ViewOf(HandOver(s, chunk)))
  {
    HandOverView(c, ViewOf(s), ViewOf(HandOver(s, chunk)), chunk);
  }

  lemma ReadWindowInv(c: Config, s: State)
    requires ValidConfig(c) && Inv(c, s) && s.w.pc == ReadWindow
    ensures Inv(c, WorkerStep(c, s))
  {
    if More(s.b.ex) {
      MoreWindows(c, s);
      WorkerFrame(c, s, WorkerStep(c, s));
    } else if Streams(s.b.ex) {
      HandOverInv(c, s);
    } else {
      LastUnaryWindow(c, s);
      UnaryFaithful(c, s);
      FinishInv(c, s, Returned(s.b.ex.resp.status, s.b.ex.resp.head.headers, Flatten(s.b.ex.resp.chunks)));
    }
  }

  lemma ReadErrorInv(c: Config, s: State)
    requires ValidConfig(c) && Inv(c, s) && s.w.pc == ReadError
    ensures Inv(c, WorkerStep(c, s))
  {
    ErrorSeen(c, ViewOf(s));
    RunningCall(c, s);
    ErrorFaithful(c, s, DecodeErrorMeta(c.codec, s.data));
    FinishInv(c, s, Failed(DecodeErrorMeta(c.codec, s.data)));
  }

  lemma ErrorFaithful(c: Config, s: State, e: Meta)
    requires Inv(c, s) && s.w.pc == ReadError && s.b.ex.out == Failure(e)
    ensures s.b.gen == s.w.gen && Quiet(s.b.pc) && s.state != REQ_READY
    ensures Faithful(s.rpcs[s.w.gen - 1].(outcome := Failed(e)), c.world(s.w.gen, s.w.req))
  {
    RunningCall(c, s);
  }

  lemma ResetInv(c: Config, s: State)
    requires Inv(c, s) && s.w.pc == Reset
    ensures Inv(c, WorkerStep(c, s))
  {
    ResetLedger(c, s);
    ResetPhase(c, s);
  }

  lemma ResetView(c: Config, v: View, u: View)
    requires Phase(c, v) && v.w.pc == Reset && !v.suspended
    requires u == v.(state := IDLE, w := v.w.(pc := User))
    ensures Phase(c, u)
  {
  }

  lemma ResetPhase(c: Config, s: State)
    requires Phase(c, ViewOf(s)) && s.w.pc == Reset && s.w.gen !in s.live && s.cgen == s.w.gen
    ensures Phase(c, ViewOf(WorkerStep(c, s)))
  {
    ResetView(c, ViewOf(s), ViewOf(WorkerStep(c, s)));
  }

  lemma ResetLedger(c: Config, s: State)
    requires Ledger(c, s) && s.w.pc == Reset
    ensures Ledger(c, WorkerStep(c, s)) && s.w.gen !in s.live && s.cgen == s.w.gen
  {
    var t := WorkerStep(c, s);
    assert s.cgen == s.w.gen && t == s.(state := IDLE, w := s.w.(pc := User));
    ResetBooks(c, s, t);
    ResetLogs(c, s.rpcs, s.live, s.w);
  }

  lemma ResetBooks(c: Config, s: State, t: State)
    requires Books(c, s) && s.w.pc == Reset && t == s.(state := IDLE, w := s.w.(pc := User))
    ensures Books(c, t)
  {
  }

  lemma ResetLogs(c: Config, rpcs: seq<Rpc>, live: set<nat>, w: Worker)
    requires LiveOk(rpcs, live, w) && Log(c, rpcs, w) && Accounted(rpcs, live, w) && w.pc == Reset
    ensures var u := w.(pc := User); LiveOk(rpcs, live, u) && Log(c, rpcs, u) && Accounted(rpcs, live, u)
  {
  }

  lemma WorkerInv(c: Config, s: State)
    requires ValidConfig(c) && Inv(c, s) && Enabled(c, s, WStep)
    ensures Inv(c, Apply(c, s, WStep))
  {
    if s.w.pc.Wait? {
      ObserveInv(c, s);
    } else if s.w.pc == ReadWindow {
      ReadWindowInv(c, s);
    } else if s.w.pc == ReadError {
      ReadErrorInv(c, s);
    } else if s.w.pc == Reset {
      ResetInv(c, s);
    } else {
      PlainLedger(c, s);
      if s.w.pc == SendAck {
        SendAckPhase(c, s);
      } else {
        PlainPhase(c, s);
      }
    }
  }

  // ---- every step ---------------------------------------------------------------------------

  lemma StepInv(c: Config, s: State, a: Action)
    requires ValidConfig(c) && Inv(c, s) && Enabled(c, s, a) && Modest(c, s, a)
    ensures Inv(c, Apply(c, s, a))
  {
    match a
    case Start(_, _, _, _, _) => StartInv(c, s, a);
    case Resume(g) => ResumeInv(c, s, g);
    case Close(g) => CloseInv(c, s, g);
    case WStep => WorkerInv(c, s);
    case BStep => BridgeInv(c, s);
    case DeliverMessage => DeliverInv(c, s);
  }

  lemma {:induction false} RunInv(c: Config, s: State, acts: seq<Action>)
    requires ValidConfig(c) && Inv(c, s)
    requires Runs(c, s, acts) && Calm(c, s, acts)
    ensures Inv(c, After(c, s, acts))
    decreases |acts|
  {
    if acts != [] {
      StepInv(c, s, acts[0]);
      RunInv(c, Apply(c, s, acts[0]), acts[1..]);
    }
  }
}
