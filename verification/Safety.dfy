/** What holds in every state the two sides can reach, whatever the schedule. */
module Safety {
  import opened Bytes
  import opened Marshal
  import opened Protocol
  import opened Invariant

  /** The runs the claims speak about: a sound set-up, no wait that expires, and room for every request. */
  ghost predicate GoodRun(c: Config, acts: seq<Action>) {
    && ValidConfig(c)
    && Runs(c, Init(c), acts)
    && Calm(c, Init(c), acts)
  }

  lemma Reached(c: Config, acts: seq<Action>)
    requires GoodRun(c, acts)
    ensures Inv(c, After(c, Init(c), acts))
  {
    InitInv(c);
    RunInv(c, Init(c), acts);
  }

  // ---- isolation -----------------------------------------------------------------------

  /** The calls started in a run, in order. */
  function Calls(acts: seq<Action>): seq<Action> {
    if acts == [] then [] else (if acts[0].Start? then [acts[0]] else []) + Calls(acts[1..])
  }

  /** Generation g of the books is the g-th call the user made. */
  ghost predicate Booked(rpcs: seq<Rpc>, calls: seq<Action>, from: nat) {
    && |rpcs| == from + |calls|
    && forall j | 0 <= j < |calls| ::
         calls[j].Start? && rpcs[from + j].req == CallRequest(calls[j], from + j + 1)
  }

  /** The requests on the books, which only a new call adds to. */
  ghost predicate SameRequests(s: State, t: State) {
    && t.w.gen == s.w.gen && |t.rpcs| == |s.rpcs|
    && forall j | 0 <= j < |s.rpcs| :: t.rpcs[j].req == s.rpcs[j].req
  }

  lemma OutcomeKeepsRequests(s: State, g: nat, o: Outcome)
    ensures SameRequests(s, SetOutcome(s, g, o)) && SameRequests(s, Finish(s, o))
  {
  }

  lemma WorkerKeepsRequests(c: Config, s: State)
    ensures SameRequests(s, WorkerStep(c, s))
  {
    match s.w.pc
    case Wait(_) => ObserveKeepsRequests(s);
    case ReadWindow => WindowKeepsRequests(c, s);
    case ReadError => OutcomeKeepsRequests(s, s.w.gen, Failed(DecodeErrorMeta(c.codec, s.data)));
    case _ =>
  }

  lemma ObserveKeepsRequests(s: State)
    ensures SameRequests(s, Observe(s))
  {
  }

  lemma WindowKeepsRequests(c: Config, s: State)
    ensures SameRequests(s, TakeWindow(c, s))
  {
  }

  lemma StepKeepsRequests(c: Config, s: State, a: Action)
    requires s.w.gen == |s.rpcs|
    ensures var t := Apply(c, s, a);
            if a.Start? then
              t.w.gen == s.w.gen + 1 && |t.rpcs| == |s.rpcs| + 1 && t.rpcs == s.rpcs + [Rpc(RequestOf(s, a), [], Open)]
            else SameRequests(s, t)
  {
    match a
    case WStep => WorkerKeepsRequests(c, s);
    case BStep => BridgeKeepsRequests(c, s);
    case Timeout => OutcomeKeepsRequests(s, s.w.gen, TimedOut);
    case Resume(g) => OutcomeKeepsRequests(s, g, Stale);
    case Close(g) => OutcomeKeepsRequests(s, g, Closed);
    case _ =>
  }

  lemma BridgeKeepsRequests(c: Config, s: State)
    ensures SameRequests(s, BridgeStep(c, s))
  {
  }

  /** The request of the call that becomes generation g. */
  function CallRequest(a: Action, g: nat): Request
    requires a.Start?
  {
    Request(Header(a.kind, a.url, a.headers, a.timeout, g), a.body)
  }

  lemma {:induction false} RequestsStay(c: Config, s: State, acts: seq<Action>, j: nat)
    requires s.w.gen == |s.rpcs| && j < |s.rpcs|
    ensures j < |After(c, s, acts).rpcs| && After(c, s, acts).rpcs[j].req == s.rpcs[j].req
    decreases |acts|
  {
    if acts != [] {
      StepKeepsRequests(c, s, acts[0]);
      RequestsStay(c, Apply(c, s, acts[0]), acts[1..], j);
    }
  }

  lemma {:induction false} CallsBooked(c: Config, s: State, acts: seq<Action>)
    requires s.w.gen == |s.rpcs|
    ensures Booked(After(c, s, acts).rpcs, Calls(acts), |s.rpcs|)
    decreases |acts|
  {
    if acts != [] {
      var t := Apply(c, s, acts[0]);
      StepKeepsRequests(c, s, acts[0]);
      CallsBooked(c, t, acts[1..]);
      if acts[0].Start? {
        RequestsStay(c, t, acts[1..], |s.rpcs|);
        BookedCons(After(c, s, acts).rpcs, acts[0], Calls(acts[1..]), |s.rpcs|);
      } else {
        assert Calls(acts) == Calls(acts[1..]);
      }
    }
  }

  lemma BookedCons(rpcs: seq<Rpc>, a: Action, calls: seq<Action>, from: nat)
    requires Booked(rpcs, calls, from + 1) && a.Start? && rpcs[from].req == CallRequest(a, from + 1)
    ensures Booked(rpcs, [a] + calls, from)
  {
    forall j | 0 <= j < |calls| + 1
      ensures ([a] + calls)[j].Start? && rpcs[from + j].req == CallRequest(([a] + calls)[j], from + j + 1)
    {
      if j > 0 {
        assert calls[j - 1].Start? && rpcs[from + 1 + (j - 1)].req == CallRequest(calls[j - 1], from + 1 + (j - 1) + 1);
      }
    }
  }

  /**
   Whatever the schedule, and however many streams were abandoned: the g-th call the user makes is
   handed data of the response fetched for exactly that call, in order, without a gap.
   */
  lemma CrossRpcIsolation(c: Config, acts: seq<Action>)
    requires GoodRun(c, acts)
    ensures var s := After(c, Init(c), acts);
            && Booked(s.rpcs, Calls(acts), 0)
            && forall j | 0 <= j < |s.rpcs| :: Faithful(s.rpcs[j], c.world(j + 1, s.rpcs[j].req))
  {
    Reached(c, acts);
    CallsBooked(c, Init(c), acts);
  }

  /** Faithful for a stream that came to its end: every byte of the body was handed over. */
  lemma EndedStreamIsComplete(c: Config, acts: seq<Action>, g: nat)
    requires GoodRun(c, acts)
    requires var s := After(c, Init(c), acts); 1 <= g <= |s.rpcs| && s.rpcs[g - 1].outcome == Ended
    ensures var p := After(c, Init(c), acts).rpcs[g - 1];
            var r := c.world(g, p.req);
            r.Answers? && Flatten(p.got) == Flatten(r.chunks)
  {
    CrossRpcIsolation(c, acts);
    var p := After(c, Init(c), acts).rpcs[g - 1];
    NonEmptyKeepsBytes(c.world(g, p.req).chunks);
  }

  // ---- dispatch -----------------------------------------------------------------------------

  /** Requests reach fetch in order, each once; only the newest may still be on its way. */
  lemma ExactlyOnceDispatch(c: Config, acts: seq<Action>)
    requires GoodRun(c, acts)
    ensures var s := After(c, Init(c), acts);
            && |s.rpcs| - 1 <= |s.dispatched| <= |s.rpcs|
            && forall j | 0 <= j < |s.dispatched| ::
                 s.dispatched[j] == s.rpcs[j].req && s.dispatched[j].header.gen == j + 1
  {
    Reached(c, acts);
    var s := After(c, Init(c), acts);
    BehindByOne(c, s);
  }

  lemma BehindByOne(c: Config, s: State)
    requires Inv(c, s)
    ensures s.b.gen == s.w.gen || s.b.gen + 1 == s.w.gen
  {
    ViewBehindByOne(c, ViewOf(s));
  }

  lemma ViewBehindByOne(c: Config, v: View)
    requires Phase(c, v)
    ensures v.b.gen == v.w.gen || v.b.gen + 1 == v.w.gen
  {
  }

  /** A bridge in its final block, on its way in, or waiting for an ack that will not come looks at STATE next. */
  predicate AboutToLook(b: Bridge) {
    b.pc == BEntry || b.pc == BLeave || b.pc == BRead || (b.pc == BAwait && !More(b.ex))
  }

  /**
   A published request that was not dispatched never waits for nobody: a nudge for it is posted or
   about to be, or the bridge is about to look at STATE, or has just seen it.
   */
  lemma NoLostWakeup(c: Config, acts: seq<Action>)
    requires GoodRun(c, acts)
    ensures var s := After(c, Init(c), acts);
            s.state == REQ_READY && s.b.gen < s.cgen ==> Nudge in s.posted || s.w.pc == PostNudge || AboutToLook(s.b)
  {
    Reached(c, acts);
    var s := After(c, Init(c), acts);
    if s.state == REQ_READY && s.b.gen < s.cgen {
      UnservedIsPending(c, s);
      if Nudges(s.posted) > 0 {
        SomeNudge(s);
      }
    }
  }

  lemma SomeNudge(s: State)
    requires InOrder(s.posted, s.detached.Some?) && Nudges(s.posted) > 0
    ensures Nudge in s.posted
  {
    var i := if s.detached.Some? then 1 else 0;
    assert s.detached.Some? ==> s.posted[1] == s.posted[1..][0];
    assert s.posted[i] == Nudge;
  }

  lemma UnservedIsPending(c: Config, s: State)
    requires Inv(c, s) && s.state == REQ_READY && s.b.gen < s.cgen
    ensures Pending(c, ViewOf(s))
  {
  }

  // ---- who may touch the region -----------------------------------------------------------------

  predicate WorkerWrites(s: State) { s.w.pc.Fill? }
  predicate WorkerReads(s: State) { s.w.pc == ReadWindow || s.w.pc == ReadError }
  predicate BridgeWrites(s: State) { s.b.pc.BStore? }
  predicate BridgeReads(s: State) { s.b.pc == BRead }

  /** The bridge owns the region from reading a request or seeing an ack until it flips STATE. */
  predicate BridgeOwns(s: State) {
    Busy(s.b.pc) || s.b.pc == BRead
  }

  /** The worker has handed the region over: it is parked, or posting its nudge. */
  predicate WorkerStandsBy(s: State) {
    || (s.w.pc == Wait(s.state) && (s.state == REQ_READY || s.state == CHUNK_ACK))
    || (s.w.pc == PostNudge && s.state == REQ_READY)
  }

  /**
   One owner at a time. While the bridge owns the region STATE is REQ_READY or CHUNK_ACK and the
   worker is parked on it, or is posting its nudge; otherwise the bridge does not touch the region.
   It never touches a region the worker has given up.
   */
  lemma RegionOwnership(c: Config, acts: seq<Action>)
    requires GoodRun(c, acts)
    ensures var s := After(c, Init(c), acts);
            && (BridgeOwns(s) ==> WorkerStandsBy(s))
            && (BridgeWrites(s) || BridgeReads(s) ==> BridgeOwns(s) && s.detached.None?)
            && (WorkerWrites(s) || WorkerReads(s) ==> !BridgeOwns(s))
            && (WorkerWrites(s) ==> s.state == IDLE || (s.state == RESP_CHUNK && s.b.pc == BAwait))
            && (WorkerReads(s) ==> s.state == RESP_CHUNK || s.state == RESP_ERROR)
  {
    Reached(c, acts);
    OwnerParks(c, After(c, Init(c), acts));
  }

  lemma OwnerParks(c: Config, s: State)
    requires Inv(c, s)
    ensures BridgeOwns(s) ==> WorkerStandsBy(s)
    ensures WorkerWrites(s) ==> s.state == IDLE || (s.state == RESP_CHUNK && s.b.pc == BAwait)
    ensures WorkerReads(s) ==> s.state == RESP_CHUNK || s.state == RESP_ERROR
  {
    if Busy(s.b.pc) {
      BusyMeansWorking(c, ViewOf(s));
    } else if s.b.pc == BRead {
      ReadMeansPending(c, ViewOf(s));
    }
  }

  // ---- no unexpected STATE --------------------------------------------------------------------

  /** Were the worker woken by a STATE it has no branch for, the call would fail, in whatever state that was. */
  lemma UnexpectedIsReported(s: State)
    requires 1 <= s.w.gen <= |s.rpcs|
    requires s.state == IDLE || s.state == REQ_READY || s.state == CHUNK_ACK || (s.state == RESP_END && s.w.col.mid)
    ensures Observe(s).w.pc == Reset && Observe(s).rpcs[s.w.gen - 1].outcome == Violation
  {
  }

  /**
   The worker never wakes to a STATE it has no branch for, and inside a payload of several windows
   the bridge is never told that the exchange was abandoned.
   */
  lemma NoUnexpectedState(c: Config, acts: seq<Action>)
    requires GoodRun(c, acts)
    ensures var s := After(c, Init(c), acts);
            && (forall j | 0 <= j < |s.rpcs| :: s.rpcs[j].outcome != Violation)
            && (s.b.pc == BAwait && More(s.b.ex) ==> s.state == RESP_CHUNK || s.state == CHUNK_ACK)
  {
    Reached(c, acts);
    var s := After(c, Init(c), acts);
    FaithfulMeansNoViolation(c, s);
    if s.b.pc == BAwait && More(s.b.ex) {
      NeverCut(c, s);
    }
  }

  lemma FaithfulMeansNoViolation(c: Config, s: State)
    requires Log(c, s.rpcs, s.w)
    ensures forall j | 0 <= j < |s.rpcs| :: s.rpcs[j].outcome != Violation
  {
    forall j | 0 <= j < |s.rpcs| ensures s.rpcs[j].outcome != Violation {
      assert Faithful(s.rpcs[j], c.world(j + 1, s.rpcs[j].req));
    }
  }

  lemma NeverCut(c: Config, s: State)
    requires Inv(c, s) && s.b.pc == BAwait && More(s.b.ex)
    ensures s.state == RESP_CHUNK || s.state == CHUNK_ACK
  {
  }

  // ---- stale generators -----------------------------------------------------------------------

  /** Everything the other side can see, and the call in progress. */
  predicate SameMachine(s: State, t: State) {
    && t.state == s.state && t.cgen == s.cgen && t.length == s.length && t.status == s.status
    && t.data == s.data && t.posted == s.posted && t.detached == s.detached && t.w == s.w && t.b == s.b
  }

  lemma StaleStep(c: Config, s: State, a: Action, g: nat)
    requires s.cgen > g && (a == Resume(g) || a == Close(g))
    ensures SameMachine(s, Apply(c, s, a))
  {
  }

  /** The generation word follows the worker's own counter and never goes back. */
  lemma GenerationGrows(c: Config, s: State, a: Action)
    requires s.cgen <= s.w.gen < I32_LIMIT
    ensures var t := Apply(c, s, a); s.cgen <= t.cgen <= t.w.gen
  {
    match a
    case WStep => WorkerGeneration(c, s);
    case BStep => BridgeGeneration(c, s);
    case _ =>
  }

  lemma WorkerGeneration(c: Config, s: State)
    ensures var t := WorkerStep(c, s); t.w.gen == s.w.gen && (t.cgen == s.cgen || t.cgen == Int32(s.w.gen))
  {
  }

  lemma BridgeGeneration(c: Config, s: State)
    ensures var t := BridgeStep(c, s); t.w.gen == s.w.gen && t.cgen == s.cgen
  {
  }

  lemma {:induction false} CallsCount(c: Config, s: State, acts: seq<Action>)
    ensures s.w.gen <= After(c, s, acts).w.gen
    decreases |acts|
  {
    if acts != [] {
      CallsCount(c, Apply(c, s, acts[0]), acts[1..]);
    }
  }

  /**
   Once a newer request is published, resuming, closing or finalising generator g changes neither
   STATE, nor the region, nor any other word, however much later it happens, as long as the
   generation is a 32-bit number. Timeouts and the size of requests do not matter.
   */
  lemma {:induction false} StaleInert(c: Config, s: State, acts: seq<Action>, g: nat, k: nat)
    requires Runs(c, s, acts) && After(c, s, acts).w.gen < I32_LIMIT
    requires g < s.cgen <= s.w.gen && k < |acts| && (acts[k] == Resume(g) || acts[k] == Close(g))
    ensures SameMachine(After(c, s, acts[..k]), After(c, s, acts[..k + 1]))
    decreases k
  {
    var t := Apply(c, s, acts[0]);
    if k == 0 {
      assert acts[..1] == [acts[0]] && [acts[0]][1..] == [];
      StaleStep(c, s, acts[0], g);
    } else {
      CallsCount(c, s, acts);
      GenerationGrows(c, s, acts[0]);
      StaleInert(c, t, acts[1..], g, k - 1);
      LaterPrefixes(c, s, acts, k);
    }
  }

  lemma LaterPrefixes(c: Config, s: State, acts: seq<Action>, k: nat)
    requires 0 < k < |acts|
    ensures var t := Apply(c, s, acts[0]);
            && After(c, s, acts[..k]) == After(c, t, acts[1..][..k - 1])
            && After(c, s, acts[..k + 1]) == After(c, t, acts[1..][..k])
  {
    assert acts[..k][0] == acts[0] && acts[..k][1..] == acts[1..][..k - 1];
    assert acts[..k + 1][0] == acts[0] && acts[..k + 1][1..] == acts[1..][..k];
  }
}
