/**
 The blocking bridge as a transition system: a worker thread that parks on a shared STATE word,
 a main thread that polls it, and one data region both write.

 Each access to STATE is a step of its own, and so is each byte stored in the region. The bridge
 runs to completion between two `await`s, but the worker may take steps in between.
 */
module Protocol {
  import opened Bytes
  import opened Marshal
  import opened Windowing

  /** The values of the STATE word, in the order of their codes 0 to 5. */
  datatype Word = IDLE | REQ_READY | RESP_CHUNK | RESP_END | RESP_ERROR | CHUNK_ACK

  // ---- the world behind `fetch` ---------------------------------------------------

  datatype Ending = Done | Breaks(error: Meta)

  type HttpStatus = n: int | 0 <= n <= 999

  /** What one fetch does: fail, or answer with a body of chunks that ends or breaks. */
  datatype Response =
    | Fails(error: Meta)
    | Answers(status: HttpStatus, head: Head, chunks: seq<Bytes>, ending: Ending)

  function StatusOf(r: Response): HttpStatus {
    if r.Answers? then r.status else 0
  }

  function HeadOf(r: Response): Head {
    if r.Answers? then r.head else Head(false, map[])
  }

  /**
   `world(n, r)` is what the n-th fetch returns when it is issued for request r.
   `seesNewRequest` says whether the bridge, while it waits for an ack, takes REQ_READY as a sign
   that its exchange was abandoned.
   */
  datatype Config = Config(codec: Codec, capacity: nat, world: (nat, Request) -> Response, seesNewRequest: bool)

  ghost predicate MetaFits(codec: Codec, m: Meta) {
    |codec.encMeta(m)| <= META_ZONE
  }

  ghost predicate MetasFit(codec: Codec, r: Response) {
    match r
    case Fails(e) => MetaFits(codec, e)
    case Answers(_, head, _, ending) =>
      && (forall more :: MetaFits(codec, Window(None, more)) && MetaFits(codec, Window(Some(head), more)))
      && (ending.Breaks? ==> MetaFits(codec, ending.error))
  }

  ghost predicate ValidConfig(c: Config) {
    && ValidCodec(c.codec)
    && META_ZONE + 4 < c.capacity < I32_LIMIT
    && (forall n, r :: MetasFit(c.codec, c.world(n, r)))
  }

  /** Payload bytes that fit in one window of a region of `n` bytes. */
  function PayloadCapacity(n: nat): nat {
    if n >= META_ZONE + 4 then n - META_ZONE - 4 else 0
  }

  /** It is the largest payload for which there is room behind a meta of any admissible size. */
  lemma CapacityIsLargest(n: nat, k: nat)
    requires k > 0
    ensures k <= PayloadCapacity(n) <==> 4 + META_ZONE + k <= n
  {
  }

  // ---- the bridge -------------------------------------------------------------------

  /** What the bridge is about to publish. */
  datatype Out = Chunk | EndOfStream | Failure(error: Meta)

  function WordOf(o: Out): Word {
    match o
    case Chunk => RESP_CHUNK
    case EndOfStream => RESP_END
    case Failure(_) => RESP_ERROR
  }

  datatype BridgePc =
    | BIdle              // not busy
    | BEntry             // entering handleRpc, about to test STATE
    | BRead              // about to read the request from the region
    | BFetch             // fetch pending
    | BBody              // body read pending
    | BStore(off: nat)   // copying a window into the region
    | BWords             // about to store the STATUS and LENGTH words
    | BFlip              // about to store STATE
    | BAwait             // waiting for the worker's ack
    | BLeave             // in the final block: not busy any more, about to test STATE

  /**
   One call of handleRpc: the request it read, the response it got, the index of the body chunk it
   is at, whether no message was emitted yet, the message being emitted, how much of it went out in
   earlier windows, and the payload bytes of one window.
   */
  datatype Exchange = Exchange(
    req: Request, resp: Response, i: nat, first: bool, msg: Bytes, sent: nat, cap: nat, out: Out)

  /** `gen` counts the fetches made so far; `ex` is the current or the last exchange. */
  datatype Bridge = Bridge(pc: BridgePc, gen: nat, ex: Exchange)

  function NextSent(x: Exchange): nat {
    WindowEnd(|x.msg|, x.cap, x.sent)
  }

  /** More windows of the current message follow the one at `sent`. */
  predicate More(x: Exchange) {
    NextSent(x) < |x.msg|
  }

  function NextWindow(x: Exchange): Win {
    WindowAt(if x.first then Some(HeadOf(x.resp)) else None, x.msg, x.cap, x.sent)
  }

  /** The bytes the bridge stores in the region for what it publishes next. */
  function Image(c: Config, x: Exchange): Bytes {
    match x.out
    case Chunk => EncodeWindow(c.codec, NextWindow(x).meta, NextWindow(x).payload)
    case EndOfStream => []
    case Failure(e) => EncodeWindow(c.codec, e, [])
  }

  // ---- the worker ---------------------------------------------------------------------

  datatype WorkerPc =
    | User               // running user code between two calls
    | Fill(off: nat)     // copying a request into the region
    | PublishGen         // about to store the generation word
    | PublishReq         // about to store REQ_READY
    | PostNudge          // about to post the nudge
    | Wait(parkedOn: Word) // parked until STATE differs from `parkedOn`
    | ReadWindow         // about to read a window
    | ReadError          // about to read the error detail
    | SendAck            // about to store CHUNK_ACK
    | Reset              // in the final block: about to store IDLE if still current

  /** The windows collected for one payload; `mid` is set once a window asked for another. */
  datatype Collector = Collector(mid: bool, head: Option<Head>, status: int, parts: Bytes)

  const NOTHING := Collector(false, None, 0, [])

  datatype Worker = Worker(pc: WorkerPc, gen: nat, req: Request, col: Collector)

  datatype Outcome =
    | Open
    | Returned(status: int, headers: map<string, string>, body: Bytes) // unary result
    | Ended              // the stream saw RESP_END
    | Failed(error: Meta)
    | Closed             // the consumer closed the generator
    | Stale              // resumed after a newer request: ended without a sign
    | TimedOut
    | Violation          // unexpected STATE

  /** What the caller of one generation asked for and has been handed so far. */
  datatype Rpc = Rpc(req: Request, got: seq<Bytes>, outcome: Outcome)

  // ---- the whole state ---------------------------------------------------------------

  /**
   A message from the worker: the nudge, or the announcement of a larger region. The announced region
   is the one in use, or, if that was replaced meanwhile, one that holds `frozen` for good.
   */
  datatype Message = Nudge | Announce(frozen: Option<Bytes>)

  /**
   `state`, `cgen`, `length`, `status` are the control words, each a signed 32-bit number, `data` the
   worker's region, `posted` the messages not delivered yet. `detached` is the region the bridge still
   uses when the worker has moved to a larger one; None means both use `data`. `rpcs[g - 1]` belongs to
   generation g, `live` holds the generations suspended at a `yield`, `dispatched` the requests given to
   fetch, in order.
   */
  datatype State = State(
    state: Word, cgen: int, length: int, status: int, data: Bytes, detached: Option<Bytes>, posted: seq<Message>,
    w: Worker, b: Bridge, rpcs: seq<Rpc>, live: set<nat>, dispatched: seq<Request>)

  /** The region the bridge reads and writes. */
  function BridgeData(s: State): Bytes {
    if s.detached.None? then s.data else s.detached.value
  }

  function SetBridgeData(s: State, d: Bytes): State {
    if s.detached.None? then s.(data := d) else s.(detached := Some(d))
  }

  const NO_REQUEST := Request(Header(Unary, "", map[], None, 0), [])

  function Init(c: Config): State {
    State(IDLE, 0, 0, 0, seq(c.capacity, _ => 0), None, [],
          Worker(User, 0, NO_REQUEST, NOTHING),
          Bridge(BIdle, 0, Exchange(NO_REQUEST, Fails(Window(None, false)), 0, false, [], 0,
                                    PayloadCapacity(c.capacity), Chunk)),
          [], {}, [])
  }

  datatype Action =
    | Start(kind: Kind, url: string, headers: map<string, string>, timeout: Option<int>, body: Bytes)
    | Resume(gen: nat)   // next() on a suspended generator
    | Close(gen: nat)    // close() or finalisation of a suspended generator
    | WStep              // the worker's next step
    | BStep              // the bridge's next step, or its fetch or read completing
    | DeliverMessage     // the main thread's event loop delivers a message
    | Timeout            // the worker's wait expires

  function RequestOf(s: State, a: Action): Request
    requires a.Start?
  {
    Request(Header(a.kind, a.url, a.headers, a.timeout, s.w.gen + 1), a.body)
  }

  predicate Abandoned(c: Config, w: Word) {
    w == IDLE || (w == REQ_READY && c.seesNewRequest)
  }

  predicate Enabled(c: Config, s: State, a: Action) {
    match a
    case Start(_, _, _, _, _) => s.w.pc == User
    case Resume(g) => s.w.pc == User && g in s.live
    case Close(g) => g in s.live
    case WStep => s.w.pc != User && (s.w.pc.Wait? ==> s.state != s.w.pc.parkedOn)
    case BStep => s.b.pc != BIdle && (s.b.pc == BAwait ==> s.state == CHUNK_ACK || Abandoned(c, s.state))
    case DeliverMessage => s.posted != [] && s.b.pc in {BIdle, BFetch, BBody, BAwait}
    case Timeout => s.w.pc.Wait? && s.state == s.w.pc.parkedOn && s.w.req.header.timeout.Some?
  }

  /** The state after an action; only meant for enabled ones. */
  function Apply(c: Config, s: State, a: Action): State {
    match a
    case Start(_, _, _, _, _) =>
      var r := RequestOf(s, a);
      var t := s.(w := Worker(Fill(0), s.w.gen + 1, r, NOTHING), rpcs := s.rpcs + [Rpc(r, [], Open)]);
      if |EncodeRequest(c.codec, r)| <= |s.data| then t else Enlarge(t, |EncodeRequest(c.codec, r)|)
    case Resume(g) =>
      if s.cgen == g then s.(w := s.w.(pc := SendAck), live := s.live - {g})
      else SetOutcome(s, g, Stale).(live := s.live - {g})
    case Close(g) =>
      SetOutcome(s, g, Closed).(live := s.live - {g}, state := if s.cgen == g then IDLE else s.state)
    case WStep => WorkerStep(c, s)
    case BStep => BridgeStep(c, s)
    case DeliverMessage => Deliver(s)
    case Timeout => Expire(s)
  }

  /** The worker replaces its region by a larger one and announces that. */
  function Enlarge(s: State, need: nat): State {
    s.(data := seq(Grown(|s.data|, need), _ => 0),
       detached := Some(BridgeData(s)),
       posted := Freeze(s.posted, s.data) + [Announce(None)])
  }

  /** Announcements of a region that is given up before they arrive. */
  function Freeze(posted: seq<Message>, d: Bytes): seq<Message> {
    seq(|posted|, i requires 0 <= i < |posted| =>
      if posted[i] == Announce(None) then Announce(Some(d)) else posted[i])
  }

  /** A nudge starts handleRpc unless it is busy; an announcement makes the bridge change regions. */
  function Deliver(s: State): State {
    if s.posted == [] then s
    else match s.posted[0]
         case Nudge => s.(posted := s.posted[1..], b := if s.b.pc == BIdle then s.b.(pc := BEntry) else s.b)
         case Announce(frozen) => s.(posted := s.posted[1..], detached := frozen)
  }

  function SetOutcome(s: State, g: nat, o: Outcome): State {
    if 1 <= g <= |s.rpcs| then s.(rpcs := s.rpcs[g - 1 := s.rpcs[g - 1].(outcome := o)]) else s
  }

  /** The call in progress ends with `o`; its final block is next. */
  function Finish(s: State, o: Outcome): State {
    SetOutcome(s, s.w.gen, o).(w := s.w.(pc := Reset))
  }

  /** The first wait of a unary call stands in front of its final block, which then does not run. */
  function Expire(s: State): State {
    if s.w.req.header.kind == Unary && s.w.pc == Wait(REQ_READY)
    then SetOutcome(s, s.w.gen, TimedOut).(w := s.w.(pc := User))
    else Finish(s, TimedOut)
  }

  function Store(data: Bytes, off: nat, image: Bytes): Bytes {
    if off < |image| && off < |data| then data[off := image[off]] else data
  }

  function WorkerStep(c: Config, s: State): State {
    match s.w.pc
    case User => s
    case Fill(off) =>
      var image := EncodeRequest(c.codec, s.w.req);
      if off < |image| then s.(data := Store(s.data, off, image), w := s.w.(pc := Fill(off + 1)))
      else s.(w := s.w.(pc := PublishGen))
    case PublishGen =>
      s.(cgen := Int32(s.w.gen), length := Int32(|EncodeRequest(c.codec, s.w.req)|), w := s.w.(pc := PublishReq))
    case PublishReq => s.(state := REQ_READY, w := s.w.(pc := PostNudge))
    case PostNudge => s.(posted := s.posted + [Nudge], w := s.w.(pc := Wait(REQ_READY)))
    case Wait(_) => Observe(s)
    case ReadWindow => TakeWindow(c, s)
    case ReadError => Finish(s, Failed(DecodeErrorMeta(c.codec, s.data)))
    case SendAck => s.(state := CHUNK_ACK, w := s.w.(pc := Wait(CHUNK_ACK)))
    case Reset => s.(state := if s.cgen == s.w.gen then IDLE else s.state, w := s.w.(pc := User))
  }

  /** The worker sees a STATE other than the one it parked on. */
  function Observe(s: State): State {
    match s.state
    case RESP_ERROR => s.(w := s.w.(pc := ReadError))
    case RESP_CHUNK =>
      s.(w := s.w.(pc := ReadWindow, col := if s.w.col.mid then s.w.col else s.w.col.(status := s.status)))
    case RESP_END =>
      if s.w.col.mid then Finish(s, Violation)
      else if s.w.req.header.kind == Unary then Finish(s, Returned(s.status, map[], []))
      else Finish(s, Ended)
    case IDLE => Finish(s, Violation)
    case REQ_READY => Finish(s, Violation)
    case CHUNK_ACK => Finish(s, Violation)
  }

  function HeadersOf(h: Option<Head>): map<string, string> {
    if h.Some? then h.value.headers else map[]
  }

  /** Read one window; ask for the next one, or hand the joined payload to the caller. */
  function TakeWindow(c: Config, s: State): State {
    var (meta, payload) := DecodeWindow(c.codec, s.data, s.length);
    var head := if s.w.col.mid then s.w.col.head else if meta.Window? then meta.head else None;
    var parts := s.w.col.parts + payload;
    if meta.Window? && meta.more then
      s.(w := s.w.(pc := SendAck, col := Collector(true, head, s.w.col.status, parts)))
    else if s.w.req.header.kind == Unary then
      Finish(s, Returned(s.w.col.status, HeadersOf(head), parts))
    else
      HandOver(s, parts)
  }

  /** The generator yields a chunk and is suspended. */
  function HandOver(s: State, chunk: Bytes): State {
    var g := s.w.gen;
    var t := s.(w := s.w.(pc := User, col := NOTHING), live := s.live + {g});
    if 1 <= g <= |s.rpcs| then t.(rpcs := s.rpcs[g - 1 := s.rpcs[g - 1].(got := s.rpcs[g - 1].got + [chunk])]) else t
  }

  function BridgeStep(c: Config, s: State): State {
    var x := s.b.ex;
    match s.b.pc
    case BIdle => s
    case BEntry => s.(b := s.b.(pc := if s.state == REQ_READY then BRead else BIdle))
    case BRead =>
      var r := DecodeRequest(c.codec, BridgeData(s));
      s.(b := Bridge(BFetch, s.b.gen + 1, Exchange(r, x.resp, 0, true, [], 0, x.cap, x.out)),
         dispatched := s.dispatched + [r])
    case BFetch => s.(b := Fetched(s.b.(ex := x.(resp := c.world(s.b.gen, x.req))), PayloadCapacity(|BridgeData(s)|)))
    case BBody => s.(b := BodyRead(s.b, PayloadCapacity(|BridgeData(s)|)))
    case BStore(off) =>
      if off < |Image(c, x)| then
        SetBridgeData(s, Store(BridgeData(s), off, Image(c, x))).(b := s.b.(pc := BStore(off + 1)))
      else s.(b := s.b.(pc := BWords))
    case BWords =>
      s.(length := Int32(|Image(c, x)|),
         status := match x.out { case Chunk => StatusOf(x.resp) case EndOfStream => s.status case Failure(_) => 0 },
         b := s.b.(pc := BFlip))
    case BFlip => s.(state := WordOf(x.out), b := s.b.(pc := if AwaitsAck(x) then BAwait else BLeave))
    case BAwait => s.(b := Acked(s.b, s.state))
    case BLeave => s.(b := s.b.(pc := if s.state == REQ_READY then BEntry else BIdle))
  }

  /** After its window is published the bridge waits, except after the last window of a unary body. */
  predicate AwaitsAck(x: Exchange) {
    x.out == Chunk && (More(x) || x.req.header.kind == ServerStream)
  }

  /** Start emitting `o`; an end of stream has nothing to copy into the region. */
  function Emit(b: Bridge, o: Out, msg: Bytes, cap: nat): Bridge {
    b.(pc := if o == EndOfStream then BWords else BStore(0), ex := b.ex.(out := o, msg := msg, sent := 0, cap := cap))
  }

  function Fetched(b: Bridge, cap: nat): Bridge {
    match b.ex.resp
    case Fails(e) => Emit(b, Failure(e), [], cap)
    case Answers(_, _, _, _) => b.(pc := BBody)
  }

  function BodyRead(b: Bridge, cap: nat): Bridge {
    match b.ex.resp
    case Fails(e) => Emit(b, Failure(e), [], cap)
    case Answers(_, _, chunks, ending) =>
      if b.ex.req.header.kind == Unary then
        match ending
        case Done => Emit(b, Chunk, Flatten(chunks), cap)
        case Breaks(e) => Emit(b, Failure(e), [], cap)
      else if b.ex.i < |chunks| then
        if chunks[b.ex.i] == [] then b.(ex := b.ex.(i := b.ex.i + 1))
        else Emit(b, Chunk, chunks[b.ex.i], cap)
      else
        match ending
        case Done => Emit(b, EndOfStream, [], cap)
        case Breaks(e) => Emit(b, Failure(e), [], cap)
  }

  /** The bridge stops waiting: on an ack it goes on, otherwise it gives the exchange up. */
  function Acked(b: Bridge, w: Word): Bridge {
    if w != CHUNK_ACK then b.(pc := BLeave)
    else if More(b.ex) then b.(pc := BStore(0), ex := b.ex.(sent := NextSent(b.ex)))
    else b.(pc := BBody, ex := b.ex.(i := b.ex.i + 1, first := false))
  }

  // ---- runs --------------------------------------------------------------------------

  predicate Runs(c: Config, s: State, acts: seq<Action>)
    decreases |acts|
  {
    acts == [] || (Enabled(c, s, acts[0]) && Runs(c, Apply(c, s, acts[0]), acts[1..]))
  }

  function After(c: Config, s: State, acts: seq<Action>): State
    decreases |acts|
  {
    if acts == [] then s else After(c, Apply(c, s, acts[0]), acts[1..])
  }

  /** The bridge is not busy and every message to it was delivered. */
  predicate Undisturbed(s: State) {
    s.b.pc == BIdle && s.posted == []
  }

  /** The request fits the region, or the region can be replaced while nothing else goes on. */
  predicate Roomy(c: Config, s: State, r: Request) {
    var need := |EncodeRequest(c.codec, r)|;
    Grown(|s.data|, need) < I32_LIMIT && (need > |s.data| ==> Undisturbed(s))
  }

  /** No wait expires, a call finds room for its request, and the generation stays a 32-bit number. */
  predicate Modest(c: Config, s: State, a: Action) {
    !a.Timeout? && (a.Start? ==> Roomy(c, s, RequestOf(s, a)) && s.w.gen + 1 < I32_LIMIT)
  }

  /** Every action of the run is modest. */
  predicate Calm(c: Config, s: State, acts: seq<Action>)
    decreases |acts|
  {
    acts == [] || (Modest(c, s, acts[0]) && Calm(c, Apply(c, s, acts[0]), acts[1..]))
  }
}
