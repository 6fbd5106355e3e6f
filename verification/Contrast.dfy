/**
 How the guarantees are lost: a bridge that ignores REQ_READY while it waits for an ack, and a region
 that is replaced while the bridge is not at rest. Each is shown by runs, from every state in which it
 can happen.
 */
module Contrast {
  import opened Bytes
  import opened Marshal
  import opened Protocol
  import opened Invariant
  import opened Schedules

  // ---- the deadlock ---------------------------------------------------------------------------

  /** A call is waiting, and nothing can happen any more but the finalising of older generators. */
  ghost predicate Wedged(c: Config, s: State) {
    s.w.pc.Wait? && s.cgen !in s.live && forall a :: Enabled(c, s, a) ==> a.Close?
  }

  /** Nothing that can still happen helps the waiting call. */
  lemma {:induction false} WedgedForGood(c: Config, s: State, acts: seq<Action>)
    requires Wedged(c, s) && Runs(c, s, acts)
    ensures Wedged(c, After(c, s, acts)) && After(c, s, acts).w == s.w
    decreases |acts|
  {
    if acts != [] {
      WedgedStep(c, s, acts[0]);
      WedgedForGood(c, Apply(c, s, acts[0]), acts[1..]);
    }
  }

  lemma WedgedStep(c: Config, s: State, a: Action)
    requires Wedged(c, s) && Enabled(c, s, a)
    ensures Wedged(c, Apply(c, s, a)) && Apply(c, s, a).w == s.w
  {
    var t := Apply(c, s, a);
    assert t.state == s.state && t.b == s.b && t.posted == s.posted;
    forall x | Enabled(c, t, x) ensures x.Close? {
      if !x.Close? {
        assert Enabled(c, s, x);
      }
    }
  }

  /** The bridge drops the nudges it gets while it waits for an ack. */
  lemma {:induction false} DropNudges(c: Config, s: State) returns (acts: seq<Action>)
    requires s.b.pc == BAwait && OnlyNudges(s.posted)
    ensures Leads(c, s, acts, s.(posted := [])) && Unaided(acts)
    decreases |s.posted|
  {
    if s.posted == [] {
      acts := [];
      assert s.(posted := []) == s;
    } else {
      var rest := DropNudges(c, Apply(c, s, DeliverMessage));
      acts := [DeliverMessage] + rest;
      assert acts[1..] == rest;
    }
  }

  /**
   Without the test for REQ_READY, a consumer that leaves its stream suspended after a chunk and
   makes any other call without a timeout wedges both sides; this happens from every such state.
   */
  lemma AbandonedStreamWedges(c: Config, s: State, a: Action) returns (acts: seq<Action>, t: State)
    requires ValidConfig(c) && !c.seesNewRequest && Inv(c, s)
    requires s.w.pc == User && s.w.gen in s.live
    requires a.Start? && Modest(c, s, a) && Enabled(c, s, a) && a.timeout.None?
    ensures Leads(c, s, [a] + acts, t) && Unaided(acts)
    ensures Wedged(c, t)
  {
    SuspendedBridge(c, s);
    acts, t := WedgeCall(c, s, a);
  }

  /** A call made while the bridge waits for an ack, followed until nothing moves. */
  lemma WedgeCall(c: Config, s: State, a: Action) returns (acts: seq<Action>, t: State)
    requires !c.seesNewRequest && a.Start? && Enabled(c, s, a) && a.timeout.None?
    requires 0 < |s.data| && |EncodeRequest(c.codec, RequestOf(s, a))| <= |s.data|
    requires s.b.pc == BAwait && OnlyNudges(s.posted) && s.w.gen + 1 < I32_LIMIT && s.w.gen + 1 !in s.live
    ensures Leads(c, s, [a] + acts, t) && Unaided(acts) && Wedged(c, t)
  {
    var call, s1 := CallRun(c, s, a);
    var drop;
    drop, t := WedgeNow(c, s1);
    CallLeadsOn(c, s, a, call, s1, drop, t);
    acts := call + drop;
  }

  /** The worker is parked on its request, the bridge waits for an ack that will not come. */
  lemma WedgeNow(c: Config, s: State) returns (acts: seq<Action>, t: State)
    requires !c.seesNewRequest && s.w.pc == Wait(REQ_READY) && s.state == REQ_READY
    requires s.b.pc == BAwait && OnlyNudges(s.posted) && s.w.req.header.timeout.None? && s.cgen !in s.live
    ensures Leads(c, s, acts, t) && Unaided(acts) && Wedged(c, t)
  {
    acts := DropNudges(c, s);
    t := s.(posted := []);
    NothingEnabled(c, t);
  }

  lemma SuspendedBridge(c: Config, s: State)
    requires Inv(c, s) && s.w.pc == User && s.w.gen in s.live
    ensures s.b.pc == BAwait && OnlyNudges(s.posted) && Sized(s.data) && s.w.gen + 1 !in s.live
  {
  }

  lemma NothingEnabled(c: Config, s: State)
    requires !c.seesNewRequest && s.w.pc == Wait(REQ_READY) && s.state == REQ_READY
    requires s.b.pc == BAwait && s.posted == [] && s.w.req.header.timeout.None? && s.cgen !in s.live
    ensures Wedged(c, s)
  {
  }

  /** A stream that begins with a chunk of any size comes to be suspended after it. */
  lemma FirstChunkRun(c: Config, s: State, a: Action) returns (acts: seq<Action>, t: State)
    requires ValidConfig(c) && Rested(s) && a.Start? && a.kind == ServerStream && s.b.pc != BAwait
    requires FitsIn(c, s, a)
    requires NonEmpty(ChunksOf(c.world(s.w.gen + 1, RequestOf(s, a)))) != []
    ensures Leads(c, s, [a] + acts, t) && Unaided(acts)
    ensures t.w.pc == User && t.w.gen == s.w.gen + 1 && t.w.gen in t.live && |t.data| == |s.data|
  {
    var p, s1 := FetchRun(c, s, a);
    var q;
    q, t := RespondRun(c, s1);
    CallLeadsOn(c, s, a, p, s1, q, t);
    acts := p + q;
  }

  lemma InitRests(c: Config)
    requires ValidConfig(c)
    ensures Rested(Init(c)) && Init(c).b.pc == BIdle && |Init(c).data| == c.capacity
  {
  }

  /** From the start to a stream that is suspended after its first chunk. */
  lemma SuspendedRun(c: Config, a: Action) returns (acts: seq<Action>, t: State)
    requires ValidConfig(c) && BeginsStream(c, a)
    ensures Leads(c, Init(c), acts, t) && Inv(c, t)
    ensures t.w.pc == User && t.w.gen == 1 && t.w.gen in t.live && |t.data| == c.capacity
  {
    InitRests(c);
    var p;
    p, t := FirstChunkRun(c, Init(c), a);
    FirstCallInv(c, a, p);
    acts := [a] + p;
  }

  lemma FirstCallInv(c: Config, a: Action, acts: seq<Action>)
    requires ValidConfig(c) && a.Start? && FitsIn(c, Init(c), a)
    requires Runs(c, Init(c), [a] + acts) && Unaided(acts)
    ensures Inv(c, After(c, Init(c), [a] + acts))
  {
    InitInv(c);
    OneCallInv(c, Init(c), a, acts);
  }

  /** The first call is a stream, fits, and its body is not empty. */
  ghost predicate BeginsStream(c: Config, a: Action) {
    && a.Start? && a.kind == ServerStream && |EncodeRequest(c.codec, RequestOf(Init(c), a))| <= c.capacity
    && NonEmpty(ChunksOf(c.world(1, RequestOf(Init(c), a)))) != []
  }

  /**
   The stuck state is reached from the start: two calls, the first a stream of which only the first
   chunk is taken. With the test in place the same calls always return (Liveness.CallReturns).
   */
  lemma DeadlockWithoutTheTest(c: Config, a: Action, b: Action) returns (acts: seq<Action>)
    requires ValidConfig(c) && !c.seesNewRequest && BeginsStream(c, a)
    requires b.Start? && b.timeout.None? && |EncodeRequest(c.codec, SecondRequest(Init(c), b))| <= c.capacity
    ensures Runs(c, Init(c), acts) && Wedged(c, After(c, Init(c), acts))
  {
    var p, s1 := SuspendedRun(c, a);
    var q, s2 := AbandonedStreamWedges(c, s1, b);
    LeadsOn(c, Init(c), p, s1, [b] + q, s2);
    acts := p + ([b] + q);
  }

  // ---- when a larger region is noticed in time -----------------------------------------------------

  /** The call needs a larger region, which can be had. */
  ghost predicate Oversized(c: Config, s: State, a: Action) {
    && a.Start? && Enabled(c, s, a) && s.w.gen + 1 < I32_LIMIT
    && !FitsIn(c, s, a)
    && Grown(|s.data|, |EncodeRequest(c.codec, RequestOf(s, a))|) < I32_LIMIT
  }

  /** Each request given to fetch is the one of its call. */
  ghost predicate RightlyDispatched(s: State) {
    |s.dispatched| <= |s.rpcs| && forall j | 0 <= j < |s.dispatched| :: s.dispatched[j] == s.rpcs[j].req
  }

  /**
   Between two calls, with the bridge busy or a message on its way: a call that needs a larger region
   can be dispatched as whatever the old region decodes to.
   */
  lemma GrowthCanBeMissed(c: Config, s: State, a: Action) returns (acts: seq<Action>, t: State)
    requires ValidConfig(c) && c.seesNewRequest && Inv(c, s) && Oversized(c, s, a) && !Undisturbed(s)
    ensures Leads(c, s, [a] + acts, t) && Unaided(acts)
    ensures t.dispatched == s.dispatched + [DecodeRequest(c.codec, s.data)]
    ensures t.rpcs == s.rpcs + [Rpc(RequestOf(s, a), [], Open)]
  {
    RestingBridge(c, s);
    acts, t := MissRun(c, s, a);
  }

  lemma MissRun(c: Config, s: State, a: Action) returns (acts: seq<Action>, t: State)
    requires c.seesNewRequest && Rested(s) && Oversized(c, s, a) && !Undisturbed(s)
    ensures Leads(c, s, [a] + acts, t) && Unaided(acts)
    ensures t.dispatched == s.dispatched + [DecodeRequest(c.codec, s.data)]
    ensures t.rpcs == s.rpcs + [Rpc(RequestOf(s, a), [], Open)]
  {
    acts, t := CallPickedUp(c, s, a);
  }

  /**
   Two announcements that arrive one after the other: the bridge moves to the region between, with what the
   worker left there, before it moves to the newest.
   */
  lemma RegionsInTurn(s: State, need: nat, more: nat, between: Bytes)
    requires s.posted == [] && s.detached.None?
    ensures var s1 := Enlarge(s, need).(data := between);
            var s2 := Enlarge(s1, more);
            && BridgeData(s1) == BridgeData(s2) == s.data
            && BridgeData(Deliver(s1)) == between
            && BridgeData(Deliver(s2)) == between && BridgeData(Deliver(Deliver(s2))) == s2.data
  {
  }

  /** What is read from a region is no longer than the region. */
  lemma BodyIsShort(codec: Codec, data: Bytes)
    ensures |DecodeRequest(codec, data).body| <= |data|
  {
  }

  /**
   Exactly when a larger region is safe: a call whose body exceeds the region is sure to be dispatched
   as itself if and only if the bridge is at rest and was told everything when the call is made.
   */
  lemma GrowthExactlySafe(c: Config, s: State, a: Action)
    requires ValidConfig(c) && c.seesNewRequest && Inv(c, s) && Oversized(c, s, a) && |a.body| > |s.data|
    ensures Undisturbed(s) <==>
              forall acts :: Runs(c, s, [a] + acts) && Unaided(acts) ==> RightlyDispatched(After(c, s, [a] + acts))
  {
    RestingBridge(c, s);
    if Undisturbed(s) {
      forall acts | Runs(c, s, [a] + acts) && Unaided(acts) ensures RightlyDispatched(After(c, s, [a] + acts)) {
        OneCallInv(c, s, a, acts);
        assert Inv(c, After(c, s, [a] + acts));
      }
    } else {
      var acts, t := GrowthCanBeMissed(c, s, a);
      BodyIsShort(c.codec, s.data);
      assert t.dispatched[|s.dispatched|] != t.rpcs[|s.dispatched|].req;
    }
  }
}
