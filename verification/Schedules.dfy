/** Stretches of runs, as stepping stones from one state to another. */
module Schedules {
  import opened Bytes
  import opened Marshal
  import opened Windowing
  import opened Protocol
  import opened Invariant

  // ---- building runs ----------------------------------------------------------------------

  ghost predicate Leads(c: Config, s: State, acts: seq<Action>, t: State) {
    Runs(c, s, acts) && After(c, s, acts) == t
  }

  lemma {:induction false} LeadsOn(c: Config, s: State, p: seq<Action>, t: State, q: seq<Action>, u: State)
    requires Leads(c, s, p, t) && Leads(c, t, q, u)
    ensures Leads(c, s, p + q, u)
    decreases |p|
  {
    if p == [] {
      assert p + q == q;
    } else {
      assert (p + q)[0] == p[0] && (p + q)[1..] == p[1..] + q;
      LeadsOn(c, Apply(c, s, p[0]), p[1..], t, q, u);
    }
  }

  lemma LeadsThen(c: Config, s: State, p: seq<Action>, t: State, a: Action)
    requires Leads(c, s, p, t) && Enabled(c, t, a)
    ensures Leads(c, s, p + [a], Apply(c, t, a))
  {
    var u := Apply(c, t, a);
    assert Runs(c, u, []) && After(c, u, []) == u;
    assert [a][1..] == [];
    LeadsOn(c, s, p, t, [a], u);
  }

  /** No call is made and no wait expires. */
  ghost predicate Unaided(acts: seq<Action>) {
    forall a | a in acts :: !a.Start? && !a.Timeout?
  }

  /** A run that begins with a call, and one that goes on from where it ends. */
  lemma CallLeadsOn(c: Config, s: State, a: Action, p: seq<Action>, t: State, q: seq<Action>, u: State)
    requires Leads(c, s, [a] + p, t) && Unaided(p) && Leads(c, t, q, u) && Unaided(q)
    ensures Leads(c, s, [a] + (p + q), u) && Unaided(p + q)
  {
    LeadsOn(c, s, [a] + p, t, q, u);
    assert [a] + p + q == [a] + (p + q);
  }

  lemma OneStep(c: Config, s: State, a: Action)
    requires Enabled(c, s, a)
    ensures Leads(c, s, [a], Apply(c, s, a))
  {
    assert [a][1..] == [];
  }

  lemma TwoSteps(c: Config, s: State, a: Action, b: Action)
    requires Enabled(c, s, a) && Enabled(c, Apply(c, s, a), b)
    ensures Leads(c, s, [a, b], Apply(c, Apply(c, s, a), b))
  {
    OneStep(c, s, a);
    LeadsThen(c, s, [a], Apply(c, s, a), b);
    assert [a] + [b] == [a, b];
  }

  lemma ThreeSteps(c: Config, s: State, a: Action, b: Action, d: Action)
    requires Enabled(c, s, a) && Enabled(c, Apply(c, s, a), b) && Enabled(c, Apply(c, Apply(c, s, a), b), d)
    ensures Leads(c, s, [a, b, d], Apply(c, Apply(c, Apply(c, s, a), b), d))
  {
    TwoSteps(c, s, a, b);
    LeadsThen(c, s, [a, b], Apply(c, Apply(c, s, a), b), d);
    assert [a, b] + [d] == [a, b, d];
  }

  // ---- stretches of a run --------------------------------------------------------------------

  /** The worker copies its request into the region. */
  lemma {:induction false} FillRun(c: Config, s: State, off: nat) returns (acts: seq<Action>, t: State)
    requires s.w.pc == Fill(off) && Holds(s.data, EncodeRequest(c.codec, s.w.req), off)
    ensures Leads(c, s, acts, t) && Unaided(acts)
    ensures t == s.(data := t.data, w := s.w.(pc := PublishGen))
    ensures |t.data| == |s.data| && EncodeRequest(c.codec, s.w.req) <= t.data
    decreases |EncodeRequest(c.codec, s.w.req)| - off
  {
    var image := EncodeRequest(c.codec, s.w.req);
    var n := Apply(c, s, WStep);
    if off < |image| {
      StoreByte(s.data, image, off);
      var rest;
      rest, t := FillRun(c, n, off + 1);
      acts := [WStep] + rest;
      assert acts[1..] == rest;
    } else {
      acts, t := [WStep], n;
      assert acts[1..] == [];
    }
  }

  /** The worker publishes the request, posts its nudge and parks. */
  lemma PublishRun(c: Config, s: State) returns (acts: seq<Action>, t: State)
    requires s.w.pc == PublishGen
    ensures Leads(c, s, acts, t) && Unaided(acts)
    ensures t == s.(state := REQ_READY, cgen := Int32(s.w.gen), length := Int32(|EncodeRequest(c.codec, s.w.req)|),
                    posted := s.posted + [Nudge], w := s.w.(pc := Wait(REQ_READY)))
  {
    var s1 := Apply(c, s, WStep);
    var s2 := Apply(c, s1, WStep);
    t := Apply(c, s2, WStep);
    assert Leads(c, s, [], s);
    LeadsThen(c, s, [], s, WStep);
    LeadsThen(c, s, [] + [WStep], s1, WStep);
    LeadsThen(c, s, [] + [WStep] + [WStep], s2, WStep);
    acts := [] + [WStep] + [WStep] + [WStep];
  }

  /** `posted` when a call has announced a new region, if it needs one. */
  function Announcing(s: State, grows: bool): seq<Message> {
    if grows then Freeze(s.posted, s.data) + [Announce(None)] else s.posted
  }

  predicate FitsIn(c: Config, s: State, a: Action)
    requires a.Start?
  {
    |EncodeRequest(c.codec, RequestOf(s, a))| <= |s.data|
  }

  /** `t` is what a call made in `s` comes to: its request is published and the worker parked. */
  ghost predicate Called(c: Config, s: State, a: Action, t: State)
    requires a.Start?
  {
    && t.state == REQ_READY && t.cgen == Int32(s.w.gen + 1) && t.status == s.status
    && t.w == Worker(Wait(REQ_READY), s.w.gen + 1, RequestOf(s, a), NOTHING) && t.b == s.b
    && t.rpcs == s.rpcs + [Rpc(RequestOf(s, a), [], Open)] && t.live == s.live && t.dispatched == s.dispatched
    && t.posted == Announcing(s, !FitsIn(c, s, a)) + [Nudge]
    && t.detached == (if FitsIn(c, s, a) then s.detached else Some(BridgeData(s)))
    && (FitsIn(c, s, a) ==> |t.data| == |s.data|) && EncodeRequest(c.codec, RequestOf(s, a)) <= t.data
  }

  lemma StartShape(c: Config, s: State, a: Action)
    requires a.Start? && 0 < |s.data|
    ensures var t := Apply(c, s, a);
            && t.w == Worker(Fill(0), s.w.gen + 1, RequestOf(s, a), NOTHING)
            && t == s.(w := t.w, rpcs := s.rpcs + [Rpc(RequestOf(s, a), [], Open)],
                       data := t.data, posted := Announcing(s, !FitsIn(c, s, a)),
                       detached := if FitsIn(c, s, a) then s.detached else Some(BridgeData(s)))
            && (FitsIn(c, s, a) ==> t.data == s.data) && |EncodeRequest(c.codec, RequestOf(s, a))| <= |t.data|
  {
  }

  /**
   From the start of a call to its request being published and the worker parked, whether the region
   is replaced for it or not.
   */
  lemma CallRun(c: Config, s: State, a: Action) returns (acts: seq<Action>, t: State)
    requires a.Start? && Enabled(c, s, a) && 0 < |s.data|
    ensures Leads(c, s, [a] + acts, t) && Unaided(acts) && Called(c, s, a, t)
  {
    StartShape(c, s, a);
    var s1 := Apply(c, s, a);
    acts, t := StartedRun(c, s1);
    assert ([a] + acts)[1..] == acts;
  }

  lemma StartedRun(c: Config, s: State) returns (acts: seq<Action>, t: State)
    requires s.w.pc == Fill(0) && |EncodeRequest(c.codec, s.w.req)| <= |s.data|
    ensures Leads(c, s, acts, t) && Unaided(acts)
    ensures |t.data| == |s.data| && EncodeRequest(c.codec, s.w.req) <= t.data
    ensures t == s.(state := REQ_READY, cgen := Int32(s.w.gen), length := t.length, data := t.data,
                    posted := s.posted + [Nudge], w := s.w.(pc := Wait(REQ_READY)))
  {
    var fill, s2 := FillRun(c, s, 0);
    var publish;
    publish, t := PublishRun(c, s2);
    LeadsOn(c, s, fill, s2, publish, t);
    acts := fill + publish;
  }

  /** What the bridge becomes when it dispatches what it reads from its region. */
  function Dispatching(c: Config, s: State): Bridge {
    Bridge(BFetch, s.b.gen + 1,
           Exchange(DecodeRequest(c.codec, BridgeData(s)), s.b.ex.resp, 0, true, [], 0, s.b.ex.cap, s.b.ex.out))
  }

  /** How far a bridge is from dispatching. */
  function Distance(pc: BridgePc): nat {
    match pc
    case BAwait => 3
    case BIdle => 2
    case BLeave => 2
    case BEntry => 1
    case _ => 0
  }

  predicate Noticing(c: Config, s: State) {
    && s.state == REQ_READY && (Quiet(s.b.pc) || (s.b.pc == BAwait && c.seesNewRequest))
    && (s.b.pc == BIdle ==> s.posted != [] && s.posted[0] == Nudge)
  }

  /** One step towards the dispatch. */
  lemma NoticeStep(c: Config, s: State, a: Action)
    requires Noticing(c, s) && a == (if s.b.pc == BIdle then DeliverMessage else BStep)
    ensures Enabled(c, s, a)
    ensures var n := Apply(c, s, a);
            && n == s.(posted := n.posted, b := s.b.(pc := n.b.pc))
            && (n.b.pc == BRead || Noticing(c, n)) && Distance(n.b.pc) < Distance(s.b.pc)
  {
  }

  lemma DispatchStep(c: Config, s: State)
    requires s.b.pc == BRead
    ensures Enabled(c, s, BStep)
    ensures Apply(c, s, BStep) ==
              s.(b := Dispatching(c, s), dispatched := s.dispatched + [DecodeRequest(c.codec, BridgeData(s))])
  {
  }

  /** A bridge that is not busy takes notice of a published request and calls fetch. */
  lemma {:induction false} PickUpRun(c: Config, s: State) returns (acts: seq<Action>, t: State)
    requires s.b.pc == BRead || Noticing(c, s)
    ensures Leads(c, s, acts, t) && Unaided(acts)
    ensures t == s.(posted := t.posted, b := Dispatching(c, s),
                    dispatched := s.dispatched + [DecodeRequest(c.codec, BridgeData(s))])
    decreases Distance(s.b.pc)
  {
    if s.b.pc == BRead {
      DispatchStep(c, s);
      acts, t := [BStep], Apply(c, s, BStep);
      assert acts[1..] == [];
    } else {
      var a := if s.b.pc == BIdle then DeliverMessage else BStep;
      NoticeStep(c, s, a);
      var n := Apply(c, s, a);
      var rest;
      rest, t := PickUpRun(c, n);
      assert Dispatching(c, n) == Dispatching(c, s);
      acts := [a] + rest;
      assert acts[1..] == rest;
    }
  }

  /** The bridge copies a window into the region. */
  lemma {:induction false} StoreRun(c: Config, s: State, off: nat) returns (acts: seq<Action>, t: State)
    requires s.detached.None?
    requires s.b.pc == BStore(off) && Holds(s.data, Image(c, s.b.ex), off)
    ensures Leads(c, s, acts, t) && Unaided(acts)
    ensures t == s.(data := t.data, b := s.b.(pc := BWords))
    ensures |t.data| == |s.data| && Image(c, s.b.ex) <= t.data
    decreases |Image(c, s.b.ex)| - off
  {
    var image := Image(c, s.b.ex);
    var n := Apply(c, s, BStep);
    if off < |image| {
      StoreByte(s.data, image, off);
      var rest;
      rest, t := StoreRun(c, n, off + 1);
      acts := [BStep] + rest;
      assert acts[1..] == rest;
    } else {
      acts, t := [BStep], n;
      assert acts[1..] == [];
    }
  }

  /** The words the bridge stores in front of STATE: an error comes with status 0, an end with length 0. */
  lemma WordsStored(c: Config, s: State)
    requires s.b.pc == BWords && |Image(c, s.b.ex)| < I32_LIMIT
    ensures var t := Apply(c, s, BStep);
            && t.b.pc == BFlip && t.state == s.state && t.length == |Image(c, s.b.ex)|
            && match s.b.ex.out
               case Failure(_) => t.status == 0
               case EndOfStream => t.status == s.status && t.length == 0
               case Chunk => s.b.ex.resp.Answers? ==> t.status == s.b.ex.resp.status
  {
  }

  /** The bridge publishes what it is about to emit. */
  lemma EmitRun(c: Config, s: State) returns (acts: seq<Action>, t: State)
    requires s.detached.None? && s.b.pc == BStore(0) && |Image(c, s.b.ex)| <= |s.data| < I32_LIMIT
    ensures Leads(c, s, acts, t) && Unaided(acts)
    ensures |t.data| == |s.data| && Image(c, s.b.ex) <= t.data
    ensures s.b.ex.out == Chunk ==> t.status == StatusOf(s.b.ex.resp)
    ensures t == s.(state := WordOf(s.b.ex.out), length := |Image(c, s.b.ex)|, status := t.status, data := t.data,
                    b := s.b.(pc := if AwaitsAck(s.b.ex) then BAwait else BLeave))
  {
    var store, s1 := StoreRun(c, s, 0);
    var s2 := Apply(c, s1, BStep);
    t := Apply(c, s2, BStep);
    LeadsThen(c, s, store, s1, BStep);
    LeadsThen(c, s, store + [BStep], s2, BStep);
    acts := store + [BStep] + [BStep];
  }

  // ---- one message from the bridge to the worker, whoever it was meant for -----------------------

  /** What was collected of a payload includes its context. */
  predicate Carrying(l: Collector, x: Exchange) {
    x.first && (l.mid ==> l.head == Some(HeadOf(x.resp)) && l.status == StatusOf(x.resp))
  }

  /** The bridge is about to emit its first message, and the worker waits, for this call or another one. */
  ghost predicate Connected(c: Config, s: State, n: nat) {
    && Sized(s.data) && s.detached.None? && 1 <= s.w.gen <= |s.rpcs|
    && s.b.pc == BStore(0) && s.b.ex.cap == PayloadCapacity(|s.data|)
    && s.b.ex.resp == c.world(n, s.b.ex.req) && s.b.ex.out != EndOfStream
    && Sending(s.b.ex, s.w.col, []) && Carrying(s.w.col, s.b.ex)
    && s.w.pc == Wait(s.state) && (s.state == REQ_READY || s.state == CHUNK_ACK)
    && s.rpcs[s.w.gen - 1].req == s.w.req
  }

  /** What a bridge emits first. */
  datatype First = First(out: Out, msg: Bytes)

  /** What a call has when its worker was shown `f` of response `r`, whichever call `r` answers. */
  function Given(p: Rpc, f: First, r: Response, status: int): Rpc {
    var streams := p.req.header.kind == ServerStream;
    match f.out
    case Failure(e) => p.(outcome := Failed(e))
    case EndOfStream => p.(outcome := if streams then Ended else Returned(status, map[], []))
    case Chunk =>
      if streams then p.(got := p.got + [f.msg])
      else p.(outcome := Returned(StatusOf(r), HeadOf(r).headers, f.msg))
  }

  /** The worker takes it for its own call. */
  function Taken(s: State, x: Exchange): seq<Rpc>
    requires 1 <= s.w.gen <= |s.rpcs|
  {
    s.rpcs[s.w.gen - 1 := Given(s.rpcs[s.w.gen - 1], First(x.out, x.msg), x.resp, s.status)]
  }

  predicate ForStream(s: State) {
    s.w.req.header.kind == ServerStream
  }

  /** The bridge has published its window, and the worker is about to read it. */
  ghost predicate WindowOut(c: Config, s: State, s1: State) {
    && |s1.data| == |s.data| && Image(c, s.b.ex) <= s1.data
    && s1 == s.(state := RESP_CHUNK, length := |Image(c, s.b.ex)|, status := StatusOf(s.b.ex.resp), data := s1.data,
                b := s1.b)
  }

  /** What the worker has collected after the next window. */
  function WithNext(l: Collector, x: Exchange): Collector {
    Collector(true, if l.mid then l.head else NextWindow(x).meta.head,
              if l.mid then l.status else StatusOf(x.resp), x.msg[..NextSent(x)])
  }

  lemma WindowRead(c: Config, s: State, s1: State, n: nat)
    requires ValidConfig(c) && Connected(c, s, n) && s.b.ex.out == Chunk && WindowOut(c, s, s1)
    ensures var x, l := s.b.ex, s.w.col;
            && DecodeWindow(c.codec, s1.data, s1.length) == (NextWindow(x).meta, NextWindow(x).payload)
            && l.parts + NextWindow(x).payload == x.msg[..NextSent(x)]
  {
    var w := NextWindow(s.b.ex);
    WindowRoundTrip(c.codec, w.meta, w.payload, s1.data);
    PartsGrow(c, s.b.ex, s.w.col);
  }

  /** The worker has noticed that a window is there. */
  function Woken(s: State): State {
    s.(w := s.w.(pc := ReadWindow, col := if s.w.col.mid then s.w.col else s.w.col.(status := s.status)))
  }

  /** The worker reads one window. */
  lemma ReadRun(c: Config, s: State) returns (acts: seq<Action>, t: State)
    requires s.w.pc.Wait? && s.w.pc != Wait(RESP_CHUNK) && s.state == RESP_CHUNK
    ensures Leads(c, s, acts, t) && Unaided(acts)
    ensures t == TakeWindow(c, Woken(s))
  {
    var s1 := Apply(c, s, WStep);
    t := Apply(c, s1, WStep);
    assert Leads(c, s, [], s);
    LeadsThen(c, s, [], s, WStep);
    LeadsThen(c, s, [] + [WStep], s1, WStep);
    acts := [] + [WStep] + [WStep];
  }

  lemma MoreTaken(c: Config, s: State, s1: State, n: nat)
    requires ValidConfig(c) && Connected(c, s, n) && s.b.ex.out == Chunk && More(s.b.ex) && WindowOut(c, s, s1)
    ensures TakeWindow(c, Woken(s1)) == s1.(w := s1.w.(pc := SendAck, col := WithNext(s.w.col, s.b.ex)))
  {
    WindowRead(c, s, s1, n);
  }

  lemma LastTaken(c: Config, s: State, s1: State, n: nat)
    requires ValidConfig(c) && Connected(c, s, n) && s.b.ex.out == Chunk && !More(s.b.ex) && WindowOut(c, s, s1)
    ensures var x, t := s.b.ex, TakeWindow(c, Woken(s1));
            && t.rpcs == Taken(s, x) && t.data == s1.data
            && (ForStream(s) ==> t.w.pc == User && t.w.gen == s.w.gen && t.live == s.live + {s.w.gen})
  {
    var x := s.b.ex;
    WindowRead(c, s, s1, n);
    assert x.msg[..NextSent(x)] == x.msg;
    LastShape(c, s1, NextWindow(x).meta, NextWindow(x).payload);
    assert (if s.w.col.mid then s.w.col.head else NextWindow(x).meta.head) == Some(HeadOf(x.resp));
  }

  /** What the worker does with the last window of a payload. */
  lemma LastShape(c: Config, s: State, meta: Meta, payload: Bytes)
    requires DecodeWindow(c.codec, s.data, s.length) == (meta, payload) && meta.Window? && !meta.more
    ensures var l, w := s.w.col, Woken(s);
            TakeWindow(c, w) ==
              if ForStream(s) then HandOver(w, l.parts + payload)
              else
                var status, head := if l.mid then l.status else s.status, if l.mid then l.head else meta.head;
                Finish(w, Returned(status, HeadersOf(head), l.parts + payload))
  {
  }

  /** A unary call whose only window has no context returns without headers. */
  lemma NoContext(c: Config, s: State, payload: Bytes)
    requires DecodeWindow(c.codec, s.data, s.length) == (Window(None, false), payload)
    requires !ForStream(s) && s.w.col == NOTHING
    ensures TakeWindow(c, Woken(s)) == Finish(Woken(s), Returned(s.status, map[], payload))
  {
    assert [] + payload == payload;
  }

  /** The worker acks, and the bridge turns to the next window. */
  lemma AckRun(c: Config, s: State) returns (acts: seq<Action>, t: State)
    requires s.w.pc == SendAck && s.b.pc == BAwait && More(s.b.ex)
    ensures Leads(c, s, acts, t) && Unaided(acts)
    ensures t == s.(state := CHUNK_ACK, w := s.w.(pc := Wait(CHUNK_ACK)),
                    b := s.b.(pc := BStore(0), ex := s.b.ex.(sent := NextSent(s.b.ex))))
  {
    var s1 := Apply(c, s, WStep);
    t := Apply(c, s1, BStep);
    assert Leads(c, s, [], s);
    LeadsThen(c, s, [], s, WStep);
    LeadsThen(c, s, [] + [WStep], s1, BStep);
    acts := [] + [WStep] + [BStep];
  }

  /** The bridge publishes a window and the worker reads it. */
  lemma WindowRun(c: Config, s: State, n: nat) returns (acts: seq<Action>, s1: State)
    requires ValidConfig(c) && Connected(c, s, n) && s.b.ex.out == Chunk
    ensures Leads(c, s, acts, TakeWindow(c, Woken(s1))) && Unaided(acts)
    ensures WindowOut(c, s, s1) && s1.b == s.b.(pc := if AwaitsAck(s.b.ex) then BAwait else BLeave)
  {
    ImageFits(c, s.b.ex, n, s.w.col, [], |s.data|);
    var p, q, s2;
    p, s1 := EmitRun(c, s);
    q, s2 := ReadRun(c, s1);
    LeadsOn(c, s, p, s1, q, s2);
    acts := p + q;
  }

  /** A window that is not the last one: the worker asks for the next, and the bridge turns to it. */
  lemma NextWindowRun(c: Config, s: State, n: nat) returns (acts: seq<Action>, t: State)
    requires ValidConfig(c) && Connected(c, s, n) && s.b.ex.out == Chunk && More(s.b.ex)
    ensures Leads(c, s, acts, t) && Unaided(acts)
    ensures Connected(c, t, n) && t.b.ex == s.b.ex.(sent := NextSent(s.b.ex)) && s.b.ex.sent < NextSent(s.b.ex)
    ensures t.rpcs == s.rpcs && t.w.gen == s.w.gen && t.w.req == s.w.req && t.live == s.live && |t.data| == |s.data|
  {
    var p, s1 := WindowRun(c, s, n);
    MoreTaken(c, s, s1, n);
    var s2 := TakeWindow(c, Woken(s1));
    var q;
    q, t := AckRun(c, s2);
    LeadsOn(c, s, p, s2, q, t);
    acts := p + q;
    NextConnected(c, s, t, n);
  }

  lemma NextConnected(c: Config, s: State, t: State, n: nat)
    requires Connected(c, s, n) && s.b.ex.out == Chunk && More(s.b.ex)
    requires t.state == CHUNK_ACK && t.w == Worker(Wait(CHUNK_ACK), s.w.gen, s.w.req, WithNext(s.w.col, s.b.ex))
             && t.rpcs == s.rpcs
    requires t.b == s.b.(ex := s.b.ex.(sent := NextSent(s.b.ex))) && |t.data| == |s.data| && t.detached.None?
    ensures Connected(c, t, n) && s.b.ex.sent < NextSent(s.b.ex)
  {
  }

  /** The last window: the worker hands the payload to its caller. */
  lemma LastWindowRun(c: Config, s: State, n: nat) returns (acts: seq<Action>, t: State)
    requires ValidConfig(c) && Connected(c, s, n) && s.b.ex.out == Chunk && !More(s.b.ex)
    ensures Leads(c, s, acts, t) && Unaided(acts)
    ensures t.rpcs == Taken(s, s.b.ex) && |t.data| == |s.data|
    ensures ForStream(s) ==> t.w.pc == User && t.w.gen == s.w.gen && t.live == s.live + {s.w.gen}
  {
    var s1;
    acts, s1 := WindowRun(c, s, n);
    LastTaken(c, s, s1, n);
    t := TakeWindow(c, Woken(s1));
  }

  lemma ErrorRun(c: Config, s: State, n: nat) returns (acts: seq<Action>, t: State)
    requires ValidConfig(c) && Connected(c, s, n) && s.b.ex.out.Failure?
    ensures Leads(c, s, acts, t) && Unaided(acts)
    ensures t.rpcs == Taken(s, s.b.ex) && |t.data| == |s.data|
  {
    ImageFits(c, s.b.ex, n, s.w.col, [], |s.data|);
    var p, s1 := EmitRun(c, s);
    ErrorMetaRoundTrip(c.codec, s.b.ex.out.error, s1.data);
    var q;
    q, t := ReadErrorRun(c, s1);
    ErrorTaken(s, s1);
    LeadsOn(c, s, p, s1, q, t);
    acts := p + q;
  }

  lemma ErrorTaken(s: State, t: State)
    requires s.b.ex.out.Failure? && 1 <= s.w.gen <= |s.rpcs| && t.rpcs == s.rpcs && t.w == s.w
    ensures Finish(t, Failed(s.b.ex.out.error)).rpcs == Taken(s, s.b.ex)
  {
  }

  lemma ReadErrorRun(c: Config, s: State) returns (acts: seq<Action>, t: State)
    requires s.w.pc.Wait? && s.w.pc != Wait(RESP_ERROR) && s.state == RESP_ERROR
    ensures Leads(c, s, acts, t) && Unaided(acts)
    ensures t == Finish(s, Failed(DecodeErrorMeta(c.codec, s.data)))
  {
    var s1 := Apply(c, s, WStep);
    t := Apply(c, s1, WStep);
    assert Leads(c, s, [], s);
    LeadsThen(c, s, [], s, WStep);
    LeadsThen(c, s, [] + [WStep], s1, WStep);
    acts := [] + [WStep] + [WStep];
  }

  /** Window after window, the worker comes to have what the bridge emits. */
  lemma {:induction false} MessageRun(c: Config, s: State, n: nat) returns (acts: seq<Action>, t: State)
    requires ValidConfig(c) && Connected(c, s, n)
    ensures Leads(c, s, acts, t) && Unaided(acts)
    ensures t.rpcs == Taken(s, s.b.ex) && |t.data| == |s.data|
    ensures s.b.ex.out == Chunk && ForStream(s) ==> t.w.pc == User && t.w.gen == s.w.gen && t.live == s.live + {s.w.gen}
    decreases |s.b.ex.msg| - s.b.ex.sent
  {
    if s.b.ex.out != Chunk {
      acts, t := ErrorRun(c, s, n);
    } else if More(s.b.ex) {
      var p, s1 := NextWindowRun(c, s, n);
      SameTaken(s, s1);
      var q;
      q, t := MessageRun(c, s1, n);
      LeadsOn(c, s, p, s1, q, t);
      acts := p + q;
    } else {
      acts, t := LastWindowRun(c, s, n);
    }
  }

  /** How much was sent makes no difference to what is taken in the end. */
  lemma SameTaken(s: State, t: State)
    requires 1 <= s.w.gen <= |s.rpcs| && t.rpcs == s.rpcs && t.w.gen == s.w.gen
    requires t.b.ex == s.b.ex.(sent := t.b.ex.sent) && s.b.ex.out != EndOfStream
    ensures Taken(t, t.b.ex) == Taken(s, s.b.ex)
  {
  }

  /** A fetch is pending, for the call the worker waits for, or for another one. */
  ghost predicate Fetching(s: State) {
    && Sized(s.data) && s.detached.None? && 1 <= s.w.gen <= |s.rpcs|
    && s.b.pc == BFetch && s.b.ex.i == 0 && s.b.ex.first
    && s.w.pc == Wait(REQ_READY) && s.state == REQ_READY && s.w.col == NOTHING
    && s.rpcs[s.w.gen - 1].req == s.w.req
  }

  /** What the bridge emits first for a call of this kind. */
  function FirstOf(kind: Kind, r: Response): First {
    match r
    case Fails(e) => First(Failure(e), [])
    case Answers(_, _, chunks, ending) =>
      if kind == ServerStream && NonEmpty(chunks) != [] then First(Chunk, NonEmpty(chunks)[0])
      else match ending
           case Breaks(e) => First(Failure(e), [])
           case Done => if kind == ServerStream then First(EndOfStream, []) else First(Chunk, Flatten(chunks))
  }

  /** The exchange after the fetch was answered, when its first message is about to be emitted. */
  ghost predicate Answered(c: Config, s: State, t: State) {
    var x, y := s.b.ex, t.b.ex;
    && t == s.(b := Bridge(if y.out == EndOfStream then BWords else BStore(0), s.b.gen, y))
    && y.resp == c.world(s.b.gen, x.req) && y.req == x.req && y.first && y.sent == 0
    && First(y.out, y.msg) == FirstOf(x.req.header.kind, y.resp)
    && y.cap == PayloadCapacity(|s.data|) && Sending(y, NOTHING, [])
  }

  /** The bridge is reading the body of a stream, and has met only empty chunks. */
  ghost predicate Skipping(c: Config, s: State) {
    var x := s.b.ex;
    && s.b.pc == BBody && s.detached.None? && Streams(x) && x.first
    && x.resp.Answers? && x.resp == c.world(s.b.gen, x.req)
    && x.i <= |x.resp.chunks| && NonEmpty(x.resp.chunks[..x.i]) == []
  }

  lemma SkipStep(c: Config, s: State)
    requires Skipping(c, s) && s.b.ex.i < |s.b.ex.resp.chunks| && s.b.ex.resp.chunks[s.b.ex.i] == []
    ensures Apply(c, s, BStep) == s.(b := s.b.(ex := s.b.ex.(i := s.b.ex.i + 1)))
    ensures Skipping(c, Apply(c, s, BStep))
  {
    NonEmptyStep(s.b.ex.resp.chunks, s.b.ex.i);
  }

  lemma SkipEnd(c: Config, s: State)
    requires Skipping(c, s) && (s.b.ex.i < |s.b.ex.resp.chunks| ==> s.b.ex.resp.chunks[s.b.ex.i] != [])
    ensures Answered(c, s, Apply(c, s, BStep))
  {
    var x := s.b.ex;
    FirstChunk(x.resp.chunks, x.i);
    assert x.i == |x.resp.chunks| ==> x.resp.chunks[..x.i] == x.resp.chunks;
  }

  /** A body is read up to its first chunk that is not empty, or to its end. */
  lemma {:induction false} SkipRun(c: Config, s: State) returns (acts: seq<Action>, t: State)
    requires Skipping(c, s)
    ensures Leads(c, s, acts, t) && Unaided(acts) && Answered(c, s, t)
    decreases |s.b.ex.resp.chunks| - s.b.ex.i
  {
    var n := Apply(c, s, BStep);
    if s.b.ex.i < |s.b.ex.resp.chunks| && s.b.ex.resp.chunks[s.b.ex.i] == [] {
      SkipStep(c, s);
      var rest;
      rest, t := SkipRun(c, n);
      acts := [BStep] + rest;
      assert acts[1..] == rest;
    } else {
      SkipEnd(c, s);
      acts, t := [BStep], n;
      assert acts[1..] == [];
    }
  }

  /** The first chunk behind empty ones is the first one that counts. */
  lemma FirstChunk(chunks: seq<Bytes>, i: nat)
    requires i <= |chunks| && NonEmpty(chunks[..i]) == [] && (i < |chunks| ==> chunks[i] != [])
    ensures if i < |chunks| then NonEmpty(chunks) != [] && NonEmpty(chunks)[0] == chunks[i] else NonEmpty(chunks) == []
  {
    if i < |chunks| {
      NonEmptyStep(chunks, i);
      NonEmptyPrefix(chunks, i + 1);
    } else {
      assert chunks[..i] == chunks;
    }
  }

  /** The fetch answers, and the bridge turns to the first message, the end or the error. */
  lemma AnswerRun(c: Config, s: State) returns (acts: seq<Action>, t: State)
    requires Fetching(s)
    ensures Leads(c, s, acts, t) && Unaided(acts) && Answered(c, s, t)
  {
    var s1 := Apply(c, s, BStep);
    assert Leads(c, s, [], s);
    LeadsThen(c, s, [], s, BStep);
    acts, t := [] + [BStep], s1;
    if s1.b.pc == BBody {
      var rest;
      rest, t := BodyRun(c, s1);
      LeadsOn(c, s, acts, s1, rest, t);
      acts := acts + rest;
    }
  }

  lemma BodyRun(c: Config, s: State) returns (acts: seq<Action>, t: State)
    requires s.b.pc == BBody && s.b.ex.resp.Answers? && s.b.ex.i == 0 && s.b.ex.first && s.detached.None?
    requires s.b.ex.resp == c.world(s.b.gen, s.b.ex.req)
    ensures Leads(c, s, acts, t) && Unaided(acts) && Answered(c, s, t)
  {
    assert s.b.ex.resp.chunks[..0] == [];
    if Streams(s.b.ex) {
      acts, t := SkipRun(c, s);
    } else {
      t := Apply(c, s, BStep);
      assert Leads(c, s, [], s);
      LeadsThen(c, s, [], s, BStep);
      acts := [] + [BStep];
      assert t.b.ex.msg[..0] == [];
    }
  }

  /** The bridge reports the end of a stream, and the worker takes it for the end of its own call. */
  lemma EndRun(c: Config, s: State) returns (acts: seq<Action>, t: State)
    requires s.b.pc == BWords && s.b.ex.out == EndOfStream && 1 <= s.w.gen <= |s.rpcs|
    requires s.w.pc == Wait(REQ_READY) && s.state == REQ_READY && s.w.col == NOTHING
             && s.rpcs[s.w.gen - 1].req == s.w.req
    ensures Leads(c, s, acts, t) && Unaided(acts)
    ensures t.rpcs == Taken(s, s.b.ex) && |t.data| == |s.data|
  {
    EndShape(c, s);
    ThreeSteps(c, s, BStep, BStep, WStep);
    acts, t := [BStep, BStep, WStep], Apply(c, Apply(c, Apply(c, s, BStep), BStep), WStep);
    EndTaken(s, Apply(c, Apply(c, s, BStep), BStep));
  }

  lemma EndShape(c: Config, s: State)
    requires s.b.pc == BWords && s.b.ex.out == EndOfStream
    ensures Apply(c, s, BStep).b.pc == BFlip
    ensures var t := Apply(c, Apply(c, s, BStep), BStep);
            t == s.(state := RESP_END, length := t.length, b := t.b)
  {
  }

  lemma EndTaken(s: State, t: State)
    requires s.b.ex.out == EndOfStream && 1 <= s.w.gen <= |s.rpcs| && s.w.col == NOTHING
             && s.rpcs[s.w.gen - 1].req == s.w.req
    requires t == s.(state := RESP_END, length := t.length, b := t.b)
    ensures Observe(t).rpcs == Taken(s, s.b.ex) && Observe(t).data == s.data
  {
  }

  /** The first message of the answer to the pending fetch becomes that of whatever call the worker waits for. */
  lemma RespondRun(c: Config, s: State) returns (acts: seq<Action>, t: State)
    requires ValidConfig(c) && Fetching(s)
    ensures Leads(c, s, acts, t) && Unaided(acts) && |t.data| == |s.data|
    ensures var r := c.world(s.b.gen, s.b.ex.req);
            var f := FirstOf(s.b.ex.req.header.kind, r);
            && t.rpcs == s.rpcs[s.w.gen - 1 := Given(s.rpcs[s.w.gen - 1], f, r, s.status)]
            && (f.out == Chunk && ForStream(s) ==> t.w.pc == User && t.w.gen == s.w.gen && t.live == s.live + {s.w.gen})
  {
    var p, s1 := AnswerRun(c, s);
    var q;
    if s1.b.ex.out == EndOfStream {
      q, t := EndRun(c, s1);
    } else {
      q, t := MessageRun(c, s1, s.b.gen);
    }
    LeadsOn(c, s, p, s1, q, t);
    acts := p + q;
  }

  // ---- calls -----------------------------------------------------------------------------------

  /** Without calls and expiries there is nothing immodest in a run. */
  lemma {:induction false} UnaidedIsCalm(c: Config, s: State, acts: seq<Action>)
    requires Unaided(acts)
    ensures Calm(c, s, acts)
    decreases |acts|
  {
    if acts != [] {
      assert acts[0] in acts;
      assert Unaided(acts[1..]);
      UnaidedIsCalm(c, Apply(c, s, acts[0]), acts[1..]);
    }
  }

  /** The invariant holds after a modest call and whatever follows from it. */
  lemma OneCallInv(c: Config, s: State, a: Action, acts: seq<Action>)
    requires ValidConfig(c) && Inv(c, s) && Modest(c, s, a)
    requires Runs(c, s, [a] + acts) && Unaided(acts)
    ensures Inv(c, After(c, s, [a] + acts))
  {
    assert ([a] + acts)[1..] == acts;
    UnaidedIsCalm(c, Apply(c, s, a), acts);
    RunInv(c, s, [a] + acts);
  }

  /** Between two calls. */
  ghost predicate Rested(s: State) {
    && s.w.pc == User && s.b.gen == s.w.gen == |s.rpcs| && s.detached.None? && Sized(s.data) && OnlyNudges(s.posted)
    && (Quiet(s.b.pc) || s.b.pc == BAwait)
  }

  lemma RestingBridge(c: Config, s: State)
    requires Inv(c, s) && s.w.pc == User
    ensures Rested(s)
  {
  }

  /**
   `t` is what a call made in `s` comes to when it has been dispatched, from the region the bridge knows
   of by then.
   */
  ghost predicate PickedUp(c: Config, s: State, a: Action, t: State)
    requires a.Start?
  {
    && EncodeRequest(c.codec, RequestOf(s, a)) <= t.data
    && t.state == REQ_READY && t.w == Worker(Wait(REQ_READY), s.w.gen + 1, RequestOf(s, a), NOTHING)
    && t.rpcs == s.rpcs + [Rpc(RequestOf(s, a), [], Open)] && t.live == s.live && t.status == s.status
    && (FitsIn(c, s, a) ==> |t.data| == |s.data| && t.detached.None?)
    && var r := DecodeRequest(c.codec, if FitsIn(c, s, a) then t.data else s.data);
       && t.dispatched == s.dispatched + [r]
       && t.b == Bridge(BFetch, s.b.gen + 1, Exchange(r, s.b.ex.resp, 0, true, [], 0, s.b.ex.cap, s.b.ex.out))
  }

  lemma PickUpShape(c: Config, s: State, a: Action, s1: State, t: State)
    requires Rested(s) && a.Start? && Called(c, s, a, s1)
    requires BridgeData(s1) == if FitsIn(c, s, a) then s1.data else s.data
    requires t == s1.(posted := t.posted, b := Dispatching(c, s1),
                      dispatched := s1.dispatched + [DecodeRequest(c.codec, BridgeData(s1))])
    ensures PickedUp(c, s, a, t)
  {
  }

  lemma CallPickedUp(c: Config, s: State, a: Action) returns (acts: seq<Action>, t: State)
    requires Rested(s) && a.Start? && (s.b.pc == BAwait ==> c.seesNewRequest)
    requires FitsIn(c, s, a) || !Undisturbed(s)
    ensures Leads(c, s, [a] + acts, t) && Unaided(acts) && PickedUp(c, s, a, t)
  {
    var p, s1 := CallRun(c, s, a);
    var q;
    q, t := NoticedRun(c, s, a, s1);
    CallLeadsOn(c, s, a, p, s1, q, t);
    acts := p + q;
  }

  lemma NoticedRun(c: Config, s: State, a: Action, s1: State) returns (acts: seq<Action>, t: State)
    requires Rested(s) && a.Start? && (s.b.pc == BAwait ==> c.seesNewRequest)
    requires (FitsIn(c, s, a) || !Undisturbed(s)) && Called(c, s, a, s1)
    ensures Leads(c, s1, acts, t) && Unaided(acts) && PickedUp(c, s, a, t)
  {
    CalledIsNoticed(c, s, a, s1);
    acts, t := PickUpRun(c, s1);
    PickUpShape(c, s, a, s1, t);
  }

  /** From the start of a call that fits to the fetch for it, from any state between two calls. */
  lemma FetchRun(c: Config, s: State, a: Action) returns (acts: seq<Action>, t: State)
    requires ValidConfig(c) && Rested(s) && a.Start?
    requires FitsIn(c, s, a) && (s.b.pc == BAwait ==> c.seesNewRequest)
    ensures Leads(c, s, [a] + acts, t) && Unaided(acts)
    ensures Fetching(t) && |t.data| == |s.data| && t.b.ex.req == t.w.req == RequestOf(s, a)
    ensures t.status == s.status
    ensures t.b.gen == t.w.gen == s.w.gen + 1 && t.rpcs == s.rpcs + [Rpc(RequestOf(s, a), [], Open)] && t.live == s.live
  {
    acts, t := CallPickedUp(c, s, a);
    RequestRoundTrip(c.codec, RequestOf(s, a), t.data);
  }

  lemma CalledIsNoticed(c: Config, s: State, a: Action, t: State)
    requires Rested(s) && a.Start? && (s.b.pc == BAwait ==> c.seesNewRequest)
    requires (FitsIn(c, s, a) || !Undisturbed(s)) && Called(c, s, a, t)
    ensures Noticing(c, t) && BridgeData(t) == if FitsIn(c, s, a) then t.data else s.data
  {
    if s.b.pc == BIdle {
      NudgeFirst(s, !FitsIn(c, s, a));
    }
  }

  lemma NudgeFirst(s: State, grows: bool)
    requires OnlyNudges(s.posted) && (grows ==> s.posted != [])
    ensures (Announcing(s, grows) + [Nudge])[0] == Nudge
  {
  }

  /** A published request that was not dispatched can be dispatched as itself by the bridge and the event loop. */
  lemma PendingIsServed(c: Config, s: State) returns (acts: seq<Action>, t: State)
    requires ValidConfig(c) && c.seesNewRequest && Inv(c, s)
    requires s.state == REQ_READY && s.b.gen < s.cgen && s.w.pc != PostNudge
    ensures Leads(c, s, acts, t) && Unaided(acts)
    ensures t.w == s.w && t.dispatched == s.dispatched + [s.w.req]
  {
    WhatIsPending(c, s);
    if s.detached.Some? {
      var n := Apply(c, s, DeliverMessage);
      var rest;
      rest, t := PickUpRun(c, n);
      acts := [DeliverMessage] + rest;
      assert acts[1..] == rest;
    } else {
      acts, t := PickUpRun(c, s);
    }
    RequestRoundTrip(c.codec, s.w.req, s.data);
  }

  lemma PendingView(c: Config, v: View)
    requires Phase(c, v) && v.state == REQ_READY && v.b.gen < v.w.gen && v.w.pc != PostNudge
    ensures Pending(c, v) && v.w.pc == Wait(REQ_READY)
  {
  }

  lemma WhatIsPending(c: Config, s: State)
    requires Inv(c, s) && s.state == REQ_READY && s.b.gen < s.cgen && s.w.pc != PostNudge
    ensures EncodeRequest(c.codec, s.w.req) <= s.data && |s.data| < I32_LIMIT
    ensures s.b.pc == BRead || Quiet(s.b.pc) || s.b.pc == BAwait
    ensures s.b.pc == BIdle && s.detached.None? ==> s.posted != [] && s.posted[0] == Nudge
    ensures s.detached.Some? ==>
              && s.b.pc == BIdle && |s.posted| > 1 && s.posted[0] == Announce(None) && s.posted[1..][0] == Nudge
  {
    PendingView(c, ViewOf(s));
  }

  /** The request of the call that is made after the next one. */
  function SecondRequest(s: State, b: Action): Request
    requires b.Start?
  {
    Request(Header(b.kind, b.url, b.headers, b.timeout, s.w.gen + 2), b.body)
  }
}
