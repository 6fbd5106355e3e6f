/** Every call returns: no reachable state is stuck, and every step uses something up. */
module Liveness {
  import opened Bytes
  import opened Marshal
  import opened Windowing
  import opened Protocol
  import opened Invariant

  // ---- no reachable state is stuck ------------------------------------------------------

  /** No call is in progress, and the last one is not suspended at a yield either. */
  predicate NothingAsked(s: State) {
    s.w.pc == User && s.w.gen !in s.live
  }

  /**
   While a call is in progress one side can move, or a nudge is on its way. When none is, whether it
   returned or its generator was closed, the bridge can move on or take a message until it is at rest.
   */
  lemma DeadlockFreedom(c: Config, s: State)
    requires c.seesNewRequest && Inv(c, s)
    ensures s.w.pc != User ==> Enabled(c, s, WStep) || Enabled(c, s, BStep) || Enabled(c, s, DeliverMessage)
    ensures NothingAsked(s) && !(s.b.pc == BIdle && s.posted == []) ==>
              Enabled(c, s, BStep) || Enabled(c, s, DeliverMessage)
  {
    if s.w.pc.Wait? && s.state == s.w.pc.parkedOn {
      ParkedIsServed(c, ViewOf(s));
    }
  }

  lemma ParkedIsServed(c: Config, v: View)
    requires Phase(c, v) && v.w.pc.Wait? && v.state == v.w.pc.parkedOn
    ensures v.b.pc == BIdle ==> v.nudges > 0
    ensures v.b.pc == BAwait ==> v.state == CHUNK_ACK || v.state == REQ_READY
  {
  }

  // ---- every step uses something up -------------------------------------------------------

  function Total(c: Config, s: State): nat {
    |ChunksOf(c.world(s.w.gen, s.w.req))|
  }

  function Left(n: nat, i: nat): nat {
    if i <= n then n - i else 0
  }

  /** Chunks the current call has not been handed yet, two units each, and what surrounds them. */
  function ChunksLeft(c: Config, s: State): nat {
    var n := Total(c, s);
    if s.b.gen < s.w.gen then 2 * n + 3
    else match s.b.pc
         case BFetch => 2 * n + 2
         case BBody => 2 * Left(n, s.b.ex.i) + 1
         case _ => if s.b.ex.out == Chunk then 2 * Left(n, s.b.ex.i) else 0
  }

  function BytesLeft(s: State): nat {
    if s.b.gen < s.w.gen || s.b.pc == BFetch || s.b.pc == BBody then 0 else Left(|s.b.ex.msg|, s.b.ex.sent)
  }

  /** How far the handshake for one window has come. */
  function Handshake(s: State): nat {
    if s.b.gen < s.w.gen then 0
    else match s.b.pc
         case BStore(_) => 7
         case BWords => 6
         case BFlip => 5
         case BFetch => 0
         case BBody => 0
         case _ =>
           match s.w.pc
           case PostNudge => 4
           case Wait(_) => if s.state == CHUNK_ACK then 0 else 4
           case ReadWindow => 3
           case ReadError => 3
           case User => if s.w.gen in s.live then 2 else 0
           case SendAck => 1
           case Reset => 1
           case _ => 0
  }

  function Calling(pc: WorkerPc): nat {
    match pc
    case Fill(_) => 4
    case PublishGen => 3
    case PublishReq => 2
    case PostNudge => 1
    case _ => 0
  }

  function Unstored(c: Config, s: State): nat {
    match s.w.pc
    case Fill(off) => Left(|EncodeRequest(c.codec, s.w.req)|, off)
    case _ => if s.b.pc.BStore? then Left(|Image(c, s.b.ex)|, s.b.pc.off) else 0
  }

  function Tidying(pc: BridgePc): nat {
    match pc
    case BAwait => 3
    case BLeave => 2
    case BEntry => 1
    case _ => 0
  }

  /** What is left to do, most significant first. */
  datatype Rank = Rank(chunks: nat, bytes: nat, handshake: nat, calling: nat, unstored: nat, live: nat, nudges: nat,
                       tidying: nat)

  function RankOf(c: Config, s: State): Rank {
    Rank(ChunksLeft(c, s), BytesLeft(s), Handshake(s), Calling(s.w.pc), Unstored(c, s), |s.live|, |s.posted|,
         Tidying(s.b.pc))
  }

  predicate Less(a: Rank, b: Rank) {
    || a.chunks < b.chunks
    || (a.chunks == b.chunks && (
         || a.bytes < b.bytes
         || (a.bytes == b.bytes && (
              || a.handshake < b.handshake
              || (a.handshake == b.handshake && (
                   || a.calling < b.calling
                   || (a.calling == b.calling && (
                        || a.unstored < b.unstored
                        || (a.unstored == b.unstored && (
                             || a.live < b.live
                             || (a.live == b.live && (
                                  || a.nudges < b.nudges
                                  || (a.nudges == b.nudges && a.tidying < b.tidying)))))))))))))
  }

  lemma RemoveShrinks(live: set<nat>, g: nat)
    requires g in live
    ensures |live - {g}| < |live|
  {
    assert live == (live - {g}) + {g};
  }

  /** A generator that is resumed, closed or finalised is no longer suspended. */
  lemma GeneratorCounts(c: Config, s: State, a: Action)
    requires Inv(c, s) && Enabled(c, s, a) && (a.Resume? || a.Close?)
    ensures Less(RankOf(c, Apply(c, s, a)), RankOf(c, s))
  {
    var g, t := a.gen, Apply(c, s, a);
    if g == s.w.gen {
      SuspendedNow(c, s);
    } else if s.w.pc.Wait? {
      OthersAreOld(c, s, a);
    }
    assert g != s.w.gen && a.Resume? ==> s.cgen != g;
    GeneratorShape(c, s, a);
    RemoveShrinks(s.live, g);
    GeneratorRanks(c, s, t, g);
  }

  lemma GeneratorShape(c: Config, s: State, a: Action)
    requires Enabled(c, s, a) && (a.Resume? || a.Close?) && (a.Resume? && a.gen != s.w.gen ==> s.cgen != a.gen)
    ensures var t := Apply(c, s, a);
            && t.live == s.live - {a.gen} && t.b == s.b && t.posted == s.posted && t.detached == s.detached
            && t.w.gen == s.w.gen && t.w.req == s.w.req
            && (t.w == s.w || (a.Resume? && a.gen == s.w.gen && s.w.pc == User && t.w.pc == SendAck))
  {
  }

  /** While the worker waits, every suspended generator is an older one. */
  lemma OthersAreOld(c: Config, s: State, a: Action)
    requires Books(c, s) && (a.Resume? || a.Close?) && a.gen != s.w.gen && s.w.pc.Wait?
    ensures Apply(c, s, a).state == s.state
  {
  }

  lemma SuspendedNow(c: Config, s: State)
    requires Inv(c, s) && s.w.gen in s.live
    ensures s.w.pc == User && s.b.gen == s.w.gen && s.b.pc == BAwait && s.cgen == s.w.gen
  {
  }

  lemma GeneratorRanks(c: Config, s: State, t: State, g: nat)
    requires t.live == s.live - {g} && |t.live| < |s.live| && t.b == s.b && t.posted == s.posted
             && t.detached == s.detached
    requires t.w.gen == s.w.gen && t.w.req == s.w.req && (s.w.pc.Wait? ==> t.state == s.state)
    requires t.w == s.w || (s.w.pc == User && t.w.pc == SendAck && s.b.gen == s.w.gen && s.b.pc == BAwait
                            && g == s.w.gen && g in s.live)
    ensures Less(RankOf(c, t), RankOf(c, s))
  {
  }

  lemma MessageCounts(c: Config, s: State)
    requires Announced(s) && Enabled(c, s, DeliverMessage)
    ensures Less(RankOf(c, Apply(c, s, DeliverMessage)), RankOf(c, s))
  {
    if s.detached.None? {
      FirstIsNudge(s.posted);
    }
  }

  // ---- the bridge ----

  lemma BusyCounts(c: Config, s: State)
    requires Inv(c, s) && Busy(s.b.pc)
    ensures Less(RankOf(c, BridgeStep(c, s)), RankOf(c, s))
  {
    BusyMeansWorking(c, ViewOf(s));
    assert s.b.ex.req == s.w.req && s.detached.None?;
    WorkingCounts(c, s);
  }

  lemma WorkingCounts(c: Config, s: State)
    requires Working(c, ViewOf(s)) && s.b.ex.req == s.w.req && s.detached.None?
    requires s.w.pc == Wait(s.state) || s.w.pc == PostNudge
    ensures Less(RankOf(c, BridgeStep(c, s)), RankOf(c, s))
  {
    match s.b.pc {
      case BFetch => FetchCounts(c, s);
      case BBody => BodyCounts(c, s);
      case BStore(_) => StoreCounts(c, s);
      case BWords => WordsCounts(c, s);
      case BFlip => FlipCounts(c, s);
    }
  }

  lemma FetchCounts(c: Config, s: State)
    requires s.b.pc == BFetch && s.b.gen == s.w.gen && s.b.ex.req == s.w.req && s.b.ex.i == 0
    ensures ChunksLeft(c, BridgeStep(c, s)) < ChunksLeft(c, s)
  {
  }

  lemma WordsCounts(c: Config, s: State)
    requires s.b.pc == BWords && s.b.gen == s.w.gen
    ensures Less(RankOf(c, BridgeStep(c, s)), RankOf(c, s))
  {
    var t := BridgeStep(c, s);
    assert ChunksLeft(c, t) == ChunksLeft(c, s) && BytesLeft(t) == BytesLeft(s);
  }

  /** Each read of the body moves on to a later chunk, or to emitting this one. */
  lemma BodyCounts(c: Config, s: State)
    requires Working(c, ViewOf(s)) && s.b.pc == BBody && s.b.ex.req == s.w.req
    ensures ChunksLeft(c, BridgeStep(c, s)) < ChunksLeft(c, s)
  {
    assert s.b.ex.resp == c.world(s.w.gen, s.w.req);
  }

  lemma StoreCounts(c: Config, s: State)
    requires Working(c, ViewOf(s)) && s.b.pc.BStore? && s.detached.None?
    requires s.w.pc.Wait? || s.w.pc == PostNudge
    ensures Less(RankOf(c, BridgeStep(c, s)), RankOf(c, s))
  {
  }

  lemma FlipCounts(c: Config, s: State)
    requires Working(c, ViewOf(s)) && s.b.pc == BFlip
    requires s.w.pc == Wait(s.state) || s.w.pc == PostNudge
    ensures Less(RankOf(c, BridgeStep(c, s)), RankOf(c, s))
  {
    assert WordOf(s.b.ex.out) != CHUNK_ACK;
  }

  lemma AckCounts(c: Config, s: State)
    requires ValidConfig(c) && AckDue(c, ViewOf(s)) && s.state == CHUNK_ACK && s.b.ex.req == s.w.req && s.b.ex.cap > 0
    ensures Less(RankOf(c, BridgeStep(c, s)), RankOf(c, s))
  {
    assert s.b.ex.resp == c.world(s.w.gen, s.w.req);
    assert More(s.b.ex) ==> s.b.ex.sent < NextSent(s.b.ex);
  }

  lemma GiveUpCounts(c: Config, s: State)
    requires (s.b.pc == BAwait && s.state != CHUNK_ACK) || s.b.pc == BLeave || s.b.pc == BEntry
    ensures Less(RankOf(c, BridgeStep(c, s)), RankOf(c, s))
  {
  }

  lemma ReadCounts(c: Config, s: State)
    requires s.b.pc == BRead && s.b.gen + 1 == s.w.gen
    ensures Less(RankOf(c, BridgeStep(c, s)), RankOf(c, s))
  {
  }

  lemma BridgeCounts(c: Config, s: State)
    requires ValidConfig(c) && Inv(c, s) && Enabled(c, s, BStep)
    ensures Less(RankOf(c, BridgeStep(c, s)), RankOf(c, s))
  {
    if Busy(s.b.pc) {
      BusyCounts(c, s);
    } else if s.b.pc == BRead {
      ReadMeansPending(c, ViewOf(s));
      ReadCounts(c, s);
    } else if s.b.pc == BAwait && s.state == CHUNK_ACK {
      AckMeansDue(c, ViewOf(s));
      RunningCall(c, s);
      AckCounts(c, s);
    } else {
      GiveUpCounts(c, s);
    }
  }

  // ---- the worker ----

  /** Writing and publishing a request. */
  lemma PublishCounts(c: Config, s: State)
    requires s.b.gen < s.w.gen && Publishing(s.w.pc)
    ensures Less(RankOf(c, WorkerStep(c, s)), RankOf(c, s))
  {
  }

  lemma PostCounts(c: Config, s: State)
    requires s.w.pc == PostNudge && s.state != CHUNK_ACK
    ensures Less(RankOf(c, WorkerStep(c, s)), RankOf(c, s))
  {
  }

  /** The handshake went on, and nothing before it in the rank has changed. */
  lemma HandshakeCounts(c: Config, s: State, t: State)
    requires t.b == s.b && t.w.gen == s.w.gen && t.w.req == s.w.req && Handshake(t) < Handshake(s)
    ensures Less(RankOf(c, t), RankOf(c, s))
  {
    assert ChunksLeft(c, t) == ChunksLeft(c, s) && BytesLeft(t) == BytesLeft(s);
  }

  /** Taking notice of what was published. */
  lemma WakeCounts(c: Config, s: State)
    requires Unread(c, ViewOf(s)) && s.w.pc.Wait?
    ensures Less(RankOf(c, Observe(s)), RankOf(c, s))
  {
    WakeShape(s);
    HandshakeCounts(c, s, Observe(s));
  }

  lemma WakeShape(s: State)
    requires s.b.gen == s.w.gen && (s.b.pc == BAwait || Quiet(s.b.pc)) && s.w.pc.Wait? && s.state == WordOf(s.b.ex.out)
    ensures var t := Observe(s);
            t.b == s.b && t.w.gen == s.w.gen && t.w.req == s.w.req && Handshake(t) < Handshake(s)
  {
    assert s.state != CHUNK_ACK;
  }

  lemma ConsumeCounts(c: Config, s: State)
    requires s.b.gen == s.w.gen && !Busy(s.b.pc)
    requires s.w.pc == ReadWindow || s.w.pc == ReadError || s.w.pc == SendAck || (s.w.pc == Reset && s.w.gen !in s.live)
    ensures Less(RankOf(c, WorkerStep(c, s)), RankOf(c, s))
  {
    ConsumeShape(c, s);
    HandshakeCounts(c, s, WorkerStep(c, s));
  }

  lemma ConsumeShape(c: Config, s: State)
    requires s.b.gen == s.w.gen && !Busy(s.b.pc)
    requires s.w.pc == ReadWindow || s.w.pc == ReadError || s.w.pc == SendAck || (s.w.pc == Reset && s.w.gen !in s.live)
    ensures var t := WorkerStep(c, s);
            t.b == s.b && t.w.gen == s.w.gen && t.w.req == s.w.req && Handshake(t) < Handshake(s)
  {
  }

  lemma ConsumePhase(c: Config, v: View)
    requires Phase(c, v) && (v.w.pc == ReadWindow || v.w.pc == ReadError || v.w.pc == SendAck || v.w.pc == Reset)
    ensures v.b.gen == v.w.gen && !Busy(v.b.pc)
  {
  }

  lemma WorkerCounts(c: Config, s: State)
    requires Inv(c, s) && Enabled(c, s, WStep)
    ensures Less(RankOf(c, WorkerStep(c, s)), RankOf(c, s))
  {
    if Publishing(s.w.pc) {
      PublishCounts(c, s);
    } else if s.w.pc == PostNudge {
      PostCounts(c, s);
    } else if s.w.pc.Wait? {
      WakeMeansUnread(c, ViewOf(s));
      WakeCounts(c, s);
    } else {
      ConsumePhase(c, ViewOf(s));
      ConsumeCounts(c, s);
    }
  }

  /** Only starting another call gives the two sides more to do. */
  lemma EveryStepCounts(c: Config, s: State, a: Action)
    requires ValidConfig(c) && Inv(c, s) && Enabled(c, s, a) && !a.Start? && !a.Timeout?
    ensures Less(RankOf(c, Apply(c, s, a)), RankOf(c, s))
  {
    match a
    case Resume(_) => GeneratorCounts(c, s, a);
    case Close(_) => GeneratorCounts(c, s, a);
    case WStep => WorkerCounts(c, s);
    case BStep => BridgeCounts(c, s);
    case DeliverMessage => MessageCounts(c, s);
  }

  // ---- whole runs ------------------------------------------------------------------------------

  /** An execution that takes an enabled step at every point before `stop` holds. */
  ghost predicate Execution(c: Config, run: nat -> State, act: nat -> Action, stop: State -> bool) {
    forall i: nat :: stop(run(i)) ||
      (Enabled(c, run(i), act(i)) && Modest(c, run(i), act(i)) && run(i + 1) == Apply(c, run(i), act(i)))
  }

  /** The call in progress is over, or its generator is suspended at a yield. */
  predicate AtUser(s: State) {
    s.w.pc == User
  }

  /** Whatever steps are taken in whatever order, a call in progress returns control to its caller. */
  lemma CallReturns(c: Config, run: nat -> State, act: nat -> Action, i: nat) returns (k: nat)
    requires ValidConfig(c) && Inv(c, run(i))
    requires Execution(c, run, act, AtUser)
    ensures i <= k && run(k).w.pc == User && Inv(c, run(k)) && run(k).w.gen == run(i).w.gen
  {
    k := ReturnsWithin(c, run, act, i, RankOf(c, run(i)));
  }

  lemma {:induction false} ReturnsWithin(c: Config, run: nat -> State, act: nat -> Action, i: nat, r: Rank)
    returns (k: nat)
    requires ValidConfig(c) && Inv(c, run(i)) && r == RankOf(c, run(i))
    requires Execution(c, run, act, AtUser)
    ensures i <= k && run(k).w.pc == User && Inv(c, run(k)) && run(k).w.gen == run(i).w.gen
    decreases r.chunks, r.bytes, r.handshake, r.calling, r.unstored, r.live, r.nudges, r.tidying
  {
    k := i;
    if !AtUser(run(i)) {
      var q := Progress(c, run(i), act(i), run(i + 1), r);
      k := ReturnsWithin(c, run, act, i + 1, q);
    }
  }

  /** One step: the invariant holds, less is left to do, and it is still the same call. */
  lemma Progress(c: Config, s: State, a: Action, t: State, r: Rank) returns (q: Rank)
    requires ValidConfig(c) && Inv(c, s) && Enabled(c, s, a) && Modest(c, s, a) && !a.Start?
    requires t == Apply(c, s, a) && r == RankOf(c, s)
    ensures Inv(c, t) && q == RankOf(c, t) && Less(q, r) && t.w.gen == s.w.gen && t.w.req == s.w.req
  {
    StepInv(c, s, a);
    EveryStepCounts(c, s, a);
    SameCall(c, s, a);
    q := RankOf(c, t);
  }

  lemma SameCall(c: Config, s: State, a: Action)
    requires !a.Start?
    ensures Apply(c, s, a).w.gen == s.w.gen && Apply(c, s, a).w.req == s.w.req
  {
  }

  /**
   Whatever steps are taken in whatever order, when no call is made the bridge comes to rest: idle, with
   every message delivered, so that a call of any size can be made (Contrast.GrowthExactlySafe).
   */
  lemma BridgeComesToRest(c: Config, run: nat -> State, act: nat -> Action, i: nat) returns (k: nat)
    requires ValidConfig(c) && Inv(c, run(i)) && NothingAsked(run(i))
    requires Execution(c, run, act, Undisturbed)
    requires forall j: nat :: !act(j).Start?
    ensures i <= k && run(k).b.pc == BIdle && run(k).posted == [] && run(k).state == IDLE
    ensures Inv(c, run(k)) && run(k).w == run(i).w
  {
    k := RestsWithin(c, run, act, i, RankOf(c, run(i)));
  }

  lemma {:induction false} RestsWithin(c: Config, run: nat -> State, act: nat -> Action, i: nat, r: Rank)
    returns (k: nat)
    requires ValidConfig(c) && Inv(c, run(i)) && NothingAsked(run(i)) && r == RankOf(c, run(i))
    requires Execution(c, run, act, Undisturbed)
    requires forall j: nat :: !act(j).Start?
    ensures i <= k && Undisturbed(run(k)) && run(k).state == IDLE && Inv(c, run(k)) && run(k).w == run(i).w
    decreases r.chunks, r.bytes, r.handshake, r.calling, r.unstored, r.live, r.nudges, r.tidying
  {
    k := i;
    if Undisturbed(run(i)) {
      IdleBetween(c, run(i));
    } else {
      var q := Progress(c, run(i), act(i), run(i + 1), r);
      StillNothingAsked(c, run(i), act(i));
      k := RestsWithin(c, run, act, i + 1, q);
    }
  }

  lemma IdleBetween(c: Config, s: State)
    requires Inv(c, s) && NothingAsked(s)
    ensures s.state == IDLE && s.cgen == s.w.gen
  {
  }

  lemma StillNothingAsked(c: Config, s: State, a: Action)
    requires Inv(c, s) && NothingAsked(s) && Enabled(c, s, a) && !a.Start?
    ensures NothingAsked(Apply(c, s, a)) && Apply(c, s, a).w == s.w
  {
    IdleBetween(c, s);
    match a
    case BStep => BridgeLeaves(c, s);
    case _ =>
  }

  lemma BridgeLeaves(c: Config, s: State)
    ensures BridgeStep(c, s).w == s.w && BridgeStep(c, s).live == s.live
  {
  }

  /** A bridge that waits for fetch, for the body or for an ack drops nudges, and moves to an announced region. */
  lemma BusyBridgeTakesMessages(c: Config, s: State)
    requires s.posted != [] && (s.b.pc == BFetch || s.b.pc == BBody || s.b.pc == BAwait)
    ensures Enabled(c, s, DeliverMessage)
    ensures var t := Apply(c, s, DeliverMessage);
            && t == s.(posted := s.posted[1..], detached := t.detached)
            && match s.posted[0]
               case Nudge => t.detached == s.detached
               case Announce(frozen) => BridgeData(t) == if frozen.None? then s.data else frozen.value
  {
  }

  /**
   How generators are left, at any point of any good run. Closing the one whose request is the current one
   makes STATE IDLE, and the bridge gives its exchange up. Resuming an older one ends it without a sign.
   */
  lemma GeneratorsAreLeft(c: Config, s: State, g: nat)
    requires Inv(c, s) && g in s.live
    ensures Enabled(c, s, Close(g)) && (s.w.pc == User ==> Enabled(c, s, Resume(g)))
    ensures var t := Apply(c, s, Close(g));
            && t.rpcs == s.rpcs[g - 1 := s.rpcs[g - 1].(outcome := Closed)] && t.live == s.live - {g}
            && (g == s.w.gen ==> t.state == IDLE && NothingAsked(t) && Enabled(c, t, BStep))
            && (g == s.w.gen ==> var n := Apply(c, t, BStep); n.b.pc == BLeave && Apply(c, n, BStep).b.pc == BIdle)
    ensures var t := Apply(c, s, Resume(g));
            && t.live == s.live - {g}
            && (s.w.pc == User ==>
                  t.rpcs == if g == s.w.gen then s.rpcs else s.rpcs[g - 1 := s.rpcs[g - 1].(outcome := Stale)])
  {
    IsSuspended(c, s, g);
    LeftRecords(c, s, g);
    if g == s.w.gen {
      SuspendedNow(c, s);
      CurrentLeft(c, s);
    }
  }

  lemma IsSuspended(c: Config, s: State, g: nat)
    requires Inv(c, s) && g in s.live
    ensures 1 <= g <= |s.rpcs| && (s.w.pc == User ==> s.cgen == s.w.gen)
  {
  }

  lemma LeftRecords(c: Config, s: State, g: nat)
    requires 1 <= g <= |s.rpcs|
    ensures var t := Apply(c, s, Close(g));
            t.rpcs == s.rpcs[g - 1 := s.rpcs[g - 1].(outcome := Closed)] && t.live == s.live - {g}
    ensures var t := Apply(c, s, Resume(g));
            && t.live == s.live - {g}
            && t.rpcs == if s.cgen == g then s.rpcs else s.rpcs[g - 1 := s.rpcs[g - 1].(outcome := Stale)]
  {
  }

  lemma CurrentLeft(c: Config, s: State)
    requires s.w.pc == User && s.b.pc == BAwait && s.cgen == s.w.gen
    ensures var t := Apply(c, s, Close(s.w.gen));
            && t.state == IDLE && NothingAsked(t) && Enabled(c, t, BStep)
            && var n := Apply(c, t, BStep); n.b.pc == BLeave && Apply(c, n, BStep).b.pc == BIdle
  {
  }

  /** Generation g has its outcome and control is back with the user. */
  predicate Over(s: State, g: nat) {
    s.w.pc == User && 1 <= g <= |s.rpcs| && s.rpcs[g - 1].outcome != Open
  }

  /** The current call is still on its way, or ended the way its response did. */
  ghost predicate OnTrack(s: State, g: nat) {
    && s.w.gen == g && 1 <= g <= |s.rpcs|
    && match s.rpcs[g - 1].outcome
       case Open => true
       case Returned(_, _, _) => true
       case Ended => true
       case Failed(_) => true
       case _ => false
  }

  lemma TrackStep(c: Config, s: State, a: Action, g: nat)
    requires ValidConfig(c) && Inv(c, s) && Enabled(c, s, a) && Modest(c, s, a) && !a.Start? && a != Close(g)
    requires OnTrack(s, g) && Inv(c, Apply(c, s, a))
    ensures OnTrack(Apply(c, s, a), g)
  {
    match a
    case WStep =>
      WorkerOutcome(c, s, g);
      NoViolation(c, WorkerStep(c, s), g);
    case BStep => BridgeOutcome(c, s);
    case DeliverMessage =>
    case Close(h) => GeneratorOutcome(c, s, a, g);
    case Resume(h) =>
      if h == g {
        SuspendedNow(c, s);
      } else {
        GeneratorOutcome(c, s, a, g);
      }
  }

  lemma GeneratorOutcome(c: Config, s: State, a: Action, g: nat)
    requires (a.Close? || a.Resume?) && a.gen != g && OnTrack(s, g)
    ensures OnTrack(Apply(c, s, a), g)
  {
    var t := Apply(c, s, a);
    assert |t.rpcs| == |s.rpcs| && t.rpcs[g - 1] == s.rpcs[g - 1];
  }

  lemma BridgeOutcome(c: Config, s: State)
    ensures BridgeStep(c, s).rpcs == s.rpcs && BridgeStep(c, s).w == s.w
  {
  }

  lemma WorkerOutcome(c: Config, s: State, g: nat)
    requires OnTrack(s, g)
    ensures var t := WorkerStep(c, s);
            OnTrack(t, g) || (|t.rpcs| == |s.rpcs| && t.rpcs[g - 1].outcome == Violation)
  {
  }

  lemma NoViolation(c: Config, s: State, g: nat)
    requires Log(c, s.rpcs, s.w) && 1 <= g <= |s.rpcs|
    ensures s.rpcs[g - 1].outcome != Violation
  {
    assert Faithful(s.rpcs[g - 1], c.world(g - 1 + 1, s.rpcs[g - 1].req));
  }

  /**
   A call that is neither closed nor superseded is carried to its end: its caller is handed all
   there is, or the error its response failed with.
   */
  lemma CallCompletes(c: Config, run: nat -> State, act: nat -> Action, g: nat, i: nat) returns (k: nat)
    requires ValidConfig(c) && Inv(c, run(i)) && OnTrack(run(i), g)
    requires Execution(c, run, act, s => Over(s, g))
    requires forall j: nat :: !act(j).Start? && act(j) != Close(g)
    ensures i <= k && Over(run(k), g)
    ensures var p := run(k).rpcs[g - 1];
            && p.req == run(i).w.req
            && (p.outcome == Ended || p.outcome.Returned? || p.outcome.Failed?)
            && Faithful(p, c.world(g, p.req))
  {
    k := CompletesWithin(c, run, act, g, i, RankOf(c, run(i)));
    OverOnTrack(c, run(k), g);
  }

  lemma OverOnTrack(c: Config, s: State, g: nat)
    requires Inv(c, s) && Over(s, g) && OnTrack(s, g)
    ensures var p := s.rpcs[g - 1];
            && p.req == s.w.req
            && (p.outcome == Ended || p.outcome.Returned? || p.outcome.Failed?)
            && Faithful(p, c.world(g, p.req))
  {
    assert Faithful(s.rpcs[g - 1], c.world(g - 1 + 1, s.rpcs[g - 1].req));
  }

  lemma {:induction false} CompletesWithin(c: Config, run: nat -> State, act: nat -> Action, g: nat, i: nat, r: Rank)
    returns (k: nat)
    requires ValidConfig(c) && Inv(c, run(i)) && OnTrack(run(i), g) && r == RankOf(c, run(i))
    requires Execution(c, run, act, s => Over(s, g))
    requires forall j: nat :: !act(j).Start? && act(j) != Close(g)
    ensures i <= k && Over(run(k), g) && OnTrack(run(k), g) && Inv(c, run(k)) && run(k).w.req == run(i).w.req
    decreases r.chunks, r.bytes, r.handshake, r.calling, r.unstored, r.live, r.nudges, r.tidying
  {
    k := i;
    if !Over(run(i), g) {
      var q := Progress(c, run(i), act(i), run(i + 1), r);
      TrackStep(c, run(i), act(i), g);
      k := CompletesWithin(c, run, act, g, i + 1, q);
    }
  }

  /** Until it is over, a call can be moved on without closing it or starting another one. */
  lemma CallCanContinue(c: Config, s: State, g: nat)
    requires ValidConfig(c) && c.seesNewRequest && Inv(c, s) && OnTrack(s, g) && !Over(s, g)
    ensures Enabled(c, s, WStep) || Enabled(c, s, BStep) || Enabled(c, s, DeliverMessage) || Enabled(c, s, Resume(g))
  {
    if s.w.pc == User {
      assert s.rpcs[g - 1].outcome == Open;
      assert g - 1 + 1 in s.live;
    } else {
      DeadlockFreedom(c, s);
    }
  }
}
