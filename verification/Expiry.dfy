/**
 Waits that expire. As long as no call follows an expired wait, every call is still told only of its
 own response. A call that does follow can be told of another's.
 */
module Expiry {
  import opened Bytes
  import opened Marshal
  import opened Protocol
  import opened Invariant
  import opened Safety
  import opened Schedules

  // ---- when isolation survives an expired wait -------------------------------------------------

  /** True to its own response; a call whose wait expired has at most been handed a part of it. */
  ghost predicate OwnRecord(p: Rpc, r: Response) {
    Faithful(p, r) || (p.outcome == TimedOut && Faithful(p.(outcome := Open), r))
  }

  predicate NoCallAfterExpiry(acts: seq<Action>)
    decreases |acts|
  {
    acts == [] || ((acts[0].Timeout? ==> Calls(acts[1..]) == []) && NoCallAfterExpiry(acts[1..]))
  }

  /** Every call but the last one of a run is made without a timeout. */
  predicate UntimedButLast(acts: seq<Action>) {
    var calls := Calls(acts);
    forall i | 0 <= i < |calls| - 1 :: calls[i].Start? && calls[i].timeout.None?
  }

  /** Every call finds room for its request, and the generation stays a 32-bit number. */
  predicate Accommodated(c: Config, s: State, acts: seq<Action>)
    decreases |acts|
  {
    acts == [] ||
    ((acts[0].Start? ==> Modest(c, s, acts[0])) && Accommodated(c, Apply(c, s, acts[0]), acts[1..]))
  }

  /** The wait of the last call has expired. */
  ghost predicate Expired(c: Config, s: State) {
    && 0 < s.w.gen == |s.rpcs| && (s.w.pc == User || s.w.pc == Reset)
    && s.cgen == s.w.gen && s.w.gen !in s.live
    && OlderStreams(s) && OwnRecords(c, s.rpcs)
  }

  ghost predicate OwnRecords(c: Config, rpcs: seq<Rpc>) {
    forall j | 0 <= j < |rpcs| :: OwnRecord(rpcs[j], c.world(j + 1, rpcs[j].req))
  }

  lemma ExpiredRecord(c: Config, rpcs: seq<Rpc>, g: nat)
    requires 1 <= g <= |rpcs| && rpcs[g - 1].outcome == Open
    requires forall j | 0 <= j < |rpcs| :: Faithful(rpcs[j], c.world(j + 1, rpcs[j].req))
    ensures OwnRecords(c, rpcs[g - 1 := rpcs[g - 1].(outcome := TimedOut)])
  {
    var p := rpcs[g - 1];
    var next := rpcs[g - 1 := p.(outcome := TimedOut)];
    assert next[g - 1].(outcome := Open) == p;
    forall j | 0 <= j < |next| ensures OwnRecord(next[j], c.world(j + 1, next[j].req)) {
      if j != g - 1 {
        assert next[j] == rpcs[j];
      }
    }
  }

  lemma ExpiryShape(s: State)
    requires 1 <= s.w.gen <= |s.rpcs|
    ensures var t := Expire(s);
            && (t.w.pc == User || t.w.pc == Reset) && t.w.gen == s.w.gen && t.live == s.live && t.cgen == s.cgen
            && t.rpcs == s.rpcs[s.w.gen - 1 := s.rpcs[s.w.gen - 1].(outcome := TimedOut)]
  {
  }

  lemma WaitingBooks(c: Config, s: State)
    requires Ledger(c, s) && s.w.pc.Wait?
    ensures 0 < s.w.gen == |s.rpcs| && s.cgen == s.w.gen && s.w.gen !in s.live && s.rpcs[s.w.gen - 1].outcome == Open
    ensures OlderStreams(s)
    ensures forall j | 0 <= j < |s.rpcs| :: Faithful(s.rpcs[j], c.world(j + 1, s.rpcs[j].req))
  {
  }

  /** Suspended generators are streams without an outcome. */
  ghost predicate OlderStreams(s: State) {
    forall g | g in s.live ::
      1 <= g <= |s.rpcs| && s.rpcs[g - 1].outcome == Open && s.rpcs[g - 1].req.header.kind == ServerStream
  }

  /**
   Every wait of a call with a timeout can expire. STATE stays as it is after the first wait of a unary
   call, which is over then; after every other wait it becomes IDLE.
   */
  lemma AnyWaitCanExpire(c: Config, s: State)
    requires Inv(c, s) && s.w.pc.Wait? && s.state == s.w.pc.parkedOn && s.w.req.header.timeout.Some?
    ensures Enabled(c, s, Timeout)
    ensures var t := Apply(c, s, Timeout);
            && t.rpcs[s.w.gen - 1].outcome == TimedOut
            && if s.w.req.header.kind == Unary && s.state == REQ_READY then t.w.pc == User && t.state == REQ_READY
               else Enabled(c, t, WStep) && var n := Apply(c, t, WStep); n.w.pc == User && n.state == IDLE
  {
    WaitingBooks(c, s);
    ExpiryEnds(c, s);
  }

  lemma ExpiryEnds(c: Config, s: State)
    requires 1 <= s.w.gen <= |s.rpcs| && s.cgen == s.w.gen && s.w.pc == Wait(s.state)
    ensures var t := Expire(s);
            && t.rpcs[s.w.gen - 1].outcome == TimedOut
            && if s.w.req.header.kind == Unary && s.state == REQ_READY then t.w.pc == User && t.state == REQ_READY
               else t.w.pc == Reset && WorkerStep(c, t).w.pc == User && WorkerStep(c, t).state == IDLE
  {
  }

  lemma ExpiryStep(c: Config, s: State)
    requires Inv(c, s) && Enabled(c, s, Timeout)
    ensures Expired(c, Apply(c, s, Timeout))
  {
    WaitingBooks(c, s);
    Expires(c, s);
  }

  lemma Expires(c: Config, s: State)
    requires 0 < s.w.gen == |s.rpcs| && s.cgen == s.w.gen && s.w.gen !in s.live && s.rpcs[s.w.gen - 1].outcome == Open
    requires OlderStreams(s)
    requires forall j | 0 <= j < |s.rpcs| :: Faithful(s.rpcs[j], c.world(j + 1, s.rpcs[j].req))
    ensures Expired(c, Expire(s))
  {
    ExpiryShape(s);
    ExpiredRecord(c, s.rpcs, s.w.gen);
    StillOlder(s, Expire(s));
  }

  lemma StillOlder(s: State, t: State)
    requires OlderStreams(s) && 1 <= s.w.gen <= |s.rpcs| == |t.rpcs| && s.w.gen !in s.live && t.live == s.live
    requires t.rpcs == s.rpcs[s.w.gen - 1 := t.rpcs[s.w.gen - 1]]
    ensures OlderStreams(t)
  {
  }

  lemma ExpiredStep(c: Config, s: State, a: Action)
    requires Expired(c, s) && Enabled(c, s, a) && !a.Start?
    ensures Expired(c, Apply(c, s, a))
  {
    match a
    case Resume(g) => ExpiredStop(c, s, Apply(c, s, a), g, Stale);
    case Close(g) => ExpiredStop(c, s, Apply(c, s, a), g, Closed);
    case WStep =>
    case BStep =>
    case DeliverMessage =>
  }

  /** An older generator is resumed or closed. */
  lemma ExpiredStop(c: Config, s: State, t: State, g: nat, o: Outcome)
    requires Expired(c, s) && g in s.live && (o == Stale || o == Closed)
    requires t == SetOutcome(s, g, o).(live := s.live - {g}, state := t.state)
    ensures Expired(c, t)
  {
    forall j | 0 <= j < |t.rpcs| ensures OwnRecord(t.rpcs[j], c.world(j + 1, t.rpcs[j].req)) {
      if j == g - 1 {
        StreamMayStop(s.rpcs[j], c.world(j + 1, s.rpcs[j].req), o);
      } else {
        assert t.rpcs[j] == s.rpcs[j];
      }
    }
    forall h | h in t.live ensures 1 <= h <= |t.rpcs| && t.rpcs[h - 1] == s.rpcs[h - 1] {
      assert h in s.live && h != g;
    }
  }

  lemma {:induction false} ExpiredRun(c: Config, s: State, acts: seq<Action>)
    requires Expired(c, s) && Runs(c, s, acts) && Calls(acts) == []
    ensures Expired(c, After(c, s, acts))
    decreases |acts|
  {
    if acts != [] {
      ExpiredStep(c, s, acts[0]);
      ExpiredRun(c, Apply(c, s, acts[0]), acts[1..]);
    }
  }

  /** The invariant holds up to the first expired wait; what is left of it, to the end of the run. */
  lemma {:induction false} ExpiryRun(c: Config, s: State, acts: seq<Action>)
    requires ValidConfig(c) && Inv(c, s)
    requires Runs(c, s, acts) && Accommodated(c, s, acts) && NoCallAfterExpiry(acts)
    ensures Inv(c, After(c, s, acts)) || Expired(c, After(c, s, acts))
    decreases |acts|
  {
    if acts != [] {
      if acts[0].Timeout? {
        ExpiryStep(c, s);
        ExpiredRun(c, Apply(c, s, acts[0]), acts[1..]);
      } else {
        StepInv(c, s, acts[0]);
        ExpiryRun(c, Apply(c, s, acts[0]), acts[1..]);
      }
    }
  }

  lemma RecordsAreOwn(c: Config, s: State)
    requires Inv(c, s) || Expired(c, s)
    ensures OwnRecords(c, s.rpcs)
  {
  }

  /** A wait expires only in a call with a timeout, and after the last call there is none to follow. */
  lemma {:induction false} UntimedNeverExpire(c: Config, s: State, acts: seq<Action>)
    requires Runs(c, s, acts) && UntimedButLast(acts)
    requires s.w.req.header.timeout.None? || Calls(acts) == []
    ensures NoCallAfterExpiry(acts)
    decreases |acts|
  {
    if acts != [] {
      var rest := acts[1..];
      assert acts[0].Start? ==> Calls(acts) == [acts[0]] + Calls(rest);
      assert !acts[0].Start? ==> Calls(acts) == Calls(rest);
      forall i | 0 <= i < |Calls(rest)| - 1 ensures Calls(rest)[i].Start? && Calls(rest)[i].timeout.None? {
        if acts[0].Start? {
          assert Calls(acts)[i + 1] == Calls(rest)[i];
        }
      }
      if acts[0].Start? && Calls(rest) != [] {
        assert Calls(acts)[0] == acts[0];
      }
      SameRequest(c, s, acts[0]);
      UntimedNeverExpire(c, Apply(c, s, acts[0]), rest);
    }
  }

  lemma SameRequest(c: Config, s: State, a: Action)
    ensures Apply(c, s, a).w.req == if a.Start? then RequestOf(s, a) else s.w.req
  {
  }

  /**
   In every run in which no call follows an expired wait, the g-th call is handed data of the response
   fetched for exactly that call, in order, without a gap.
   */
  lemma IsolationUntilExpiry(c: Config, acts: seq<Action>)
    requires ValidConfig(c) && Runs(c, Init(c), acts) && Accommodated(c, Init(c), acts) && NoCallAfterExpiry(acts)
    ensures var s := After(c, Init(c), acts);
            && Booked(s.rpcs, Calls(acts), 0)
            && OwnRecords(c, s.rpcs)
  {
    InitInv(c);
    ExpiryRun(c, Init(c), acts);
    RecordsAreOwn(c, After(c, Init(c), acts));
    CallsBooked(c, Init(c), acts);
  }

  /** What a caller can see to: all calls but the last are made without a timeout. */
  lemma UntimedCallsAreSafe(c: Config, acts: seq<Action>)
    requires ValidConfig(c) && Runs(c, Init(c), acts) && Accommodated(c, Init(c), acts) && UntimedButLast(acts)
    ensures NoCallAfterExpiry(acts)
    ensures var s := After(c, Init(c), acts);
            && Booked(s.rpcs, Calls(acts), 0)
            && OwnRecords(c, s.rpcs)
  {
    UntimedNeverExpire(c, Init(c), acts);
    IsolationUntilExpiry(c, acts);
  }

  // ---- when it does not ---------------------------------------------------------------------------

  lemma {:induction false} CallsAppend(p: seq<Action>, q: seq<Action>)
    ensures Calls(p + q) == Calls(p) + Calls(q)
  {
    if p == [] {
      assert p + q == q;
    } else {
      assert (p + q)[0] == p[0] && (p + q)[1..] == p[1..] + q;
      CallsAppend(p[1..], q);
    }
  }

  lemma {:induction false} NoCalls(acts: seq<Action>)
    requires forall a | a in acts :: !a.Start?
    ensures Calls(acts) == []
  {
    if acts != [] {
      assert acts[0] in acts;
      NoCalls(acts[1..]);
    }
  }

  /** The wait for the answer to a call expires, and the worker is free again; the fetch is still pending. */
  lemma ExpireRun(c: Config, s: State) returns (acts: seq<Action>, t: State)
    requires Fetching(s) && s.w.req.header.timeout.Some?
    ensures Leads(c, s, acts, t) && Calls(acts) == []
    ensures t == SetOutcome(s, s.w.gen, TimedOut).(state := t.state, w := s.w.(pc := User))
  {
    var s1 := Apply(c, s, Timeout);
    assert Leads(c, s, [], s);
    LeadsThen(c, s, [], s, Timeout);
    if s.w.req.header.kind == Unary {
      acts, t := [] + [Timeout], s1;
    } else {
      t := Apply(c, s1, WStep);
      LeadsThen(c, s, [] + [Timeout], s1, WStep);
      acts := [] + [Timeout] + [WStep];
    }
    NoCalls(acts);
  }

  /** A call is published while the bridge waits for the answer to an earlier one. */
  lemma PublishedRun(c: Config, s: State, b: Action) returns (acts: seq<Action>, t: State)
    requires s.w.pc == User && s.b.pc == BFetch && s.b.ex.i == 0 && s.b.ex.first && Sized(s.data) && s.detached.None?
    requires b.Start? && FitsIn(c, s, b) && s.w.gen == |s.rpcs|
    ensures Leads(c, s, [b] + acts, t) && Unaided(acts)
    ensures Fetching(t) && t.b == s.b && t.w.gen == s.w.gen + 1 && t.status == s.status
    ensures t.rpcs == s.rpcs + [Rpc(RequestOf(s, b), [], Open)]
  {
    acts, t := CallRun(c, s, b);
  }

  /** The wait expires and the next call is published; the fetch is still the one for the first call. */
  lemma NextCallRun(c: Config, s: State, b: Action) returns (acts: seq<Action>, t: State)
    requires Fetching(s) && s.w.req.header.timeout.Some?
    requires b.Start? && FitsIn(c, s, b) && s.w.gen == |s.rpcs|
    ensures Leads(c, s, acts, t) && Calls(acts) == [b]
    ensures Fetching(t) && t.b == s.b && t.w.gen == s.w.gen + 1 && t.status == s.status
    ensures t.rpcs == SetOutcome(s, s.w.gen, TimedOut).rpcs + [Rpc(RequestOf(s, b), [], Open)]
  {
    var p, s1 := ExpireRun(c, s);
    var q;
    q, t := PublishedRun(c, s1, b);
    LeadsOn(c, s, p, s1, [b] + q, t);
    acts := p + ([b] + q);
    OnlyCall(p, b, q);
  }

  lemma OnlyCall(p: seq<Action>, b: Action, q: seq<Action>)
    requires Calls(p) == [] && b.Start? && Unaided(q)
    ensures Calls(p + ([b] + q)) == [b]
  {
    NoCalls(q);
    CallsAppend([b], q);
    CallsAppend(p, [b] + q);
    assert [b][1..] == [];
  }

  lemma CallsBetween(p: seq<Action>, q: seq<Action>, r: seq<Action>)
    requires Unaided(p) && Unaided(r)
    ensures Calls(p + q + r) == Calls(q)
  {
    NoCalls(p);
    NoCalls(r);
    CallsAppend(p, q);
    CallsAppend(p + q, r);
  }

  /** The record of the call made after `a`, if it is given what was fetched for `a`. */
  function Crossed(c: Config, s: State, a: Action, b: Action): Rpc
    requires a.Start? && b.Start?
  {
    var r := c.world(s.w.gen + 1, RequestOf(s, a));
    Given(Rpc(SecondRequest(s, b), [], Open), FirstOf(a.kind, r), r, s.status)
  }

  /** Two calls that fit the region, one after the other. */
  ghost predicate Pair(c: Config, s: State, a: Action, b: Action) {
    && a.Start? && Enabled(c, s, a) && FitsIn(c, s, a)
    && b.Start? && |EncodeRequest(c.codec, SecondRequest(s, b))| <= |s.data|
    && (s.b.pc == BAwait ==> c.seesNewRequest) && s.w.gen + 2 < I32_LIMIT
  }

  /**
   From every state between two calls, for any two calls of whatever kinds, the first with a timeout:
   the second can be given what was fetched for the first. The bridge does not compare generations
   before it writes an answer.
   */
  lemma TimeoutCrossesCalls(c: Config, s: State, a: Action, b: Action) returns (more: seq<Action>)
    requires ValidConfig(c) && Inv(c, s) && Pair(c, s, a, b) && a.timeout.Some?
    ensures Runs(c, s, [a] + more) && Calls(more) == [b]
    ensures var t := After(c, s, [a] + more);
            && |t.rpcs| == |s.rpcs| + 2
            && t.rpcs[|s.rpcs|].outcome == TimedOut
            && t.rpcs[|s.rpcs| + 1] == Crossed(c, s, a, b)
  {
    RestingBridge(c, s);
    more := CrossingRun(c, s, a, b);
  }

  lemma CrossingRun(c: Config, s: State, a: Action, b: Action) returns (more: seq<Action>)
    requires ValidConfig(c) && Rested(s) && Pair(c, s, a, b) && a.timeout.Some?
    ensures Runs(c, s, [a] + more) && Calls(more) == [b]
    ensures var t := After(c, s, [a] + more);
            && |t.rpcs| == |s.rpcs| + 2
            && t.rpcs[|s.rpcs|].outcome == TimedOut
            && t.rpcs[|s.rpcs| + 1] == Crossed(c, s, a, b)
  {
    var p, s1 := FetchRun(c, s, a);
    var q, s2 := NextCallRun(c, s1, b);
    var r, s3 := RespondRun(c, s2);
    LeadsOn(c, s, [a] + p, s1, q, s2);
    LeadsOn(c, s, [a] + p + q, s2, r, s3);
    more := p + q + r;
    assert [a] + p + q + r == [a] + more;
    CallsBetween(p, q, r);
  }

  /** The call made after `a` has a record that is true to the response to its own request. */
  ghost predicate SecondIsOwn(c: Config, s: State, t: State) {
    |t.rpcs| == |s.rpcs| + 2 && var p := t.rpcs[|s.rpcs| + 1]; OwnRecord(p, c.world(|s.rpcs| + 2, p.req))
  }

  /** A region never shrinks, and only calls replace it. */
  lemma SameRegion(c: Config, s: State, a: Action)
    ensures a.Start? ==> Apply(c, s, a).w.gen == s.w.gen + 1
    ensures !a.Start? ==> Apply(c, s, a).w.gen == s.w.gen
    ensures !a.Start? || FitsIn(c, s, a) ==> |Apply(c, s, a).data| == |s.data|
  {
  }

  /** One more call that fits is accommodated whenever it is made. */
  lemma {:induction false} OneFits(c: Config, s: State, acts: seq<Action>, n: nat)
    requires Runs(c, s, acts) && |Calls(acts)| <= n <= 1 && |s.data| < I32_LIMIT && s.w.gen + 1 < I32_LIMIT
    requires forall b | b in Calls(acts) :: b.Start? && FitsIn(c, s, b)
    ensures Accommodated(c, s, acts)
    decreases |acts|
  {
    if acts != [] {
      var a, rest := acts[0], acts[1..];
      SameRegion(c, s, a);
      CallsTail(acts);
      if a.Start? {
        NoneLeft(c, Apply(c, s, a), rest);
      } else {
        OneFits(c, Apply(c, s, a), rest, n);
      }
    }
  }

  lemma CallsTail(acts: seq<Action>)
    requires acts != []
    ensures Calls(acts) == (if acts[0].Start? then [acts[0]] else []) + Calls(acts[1..])
    ensures acts[0].Start? ==> acts[0] in Calls(acts)
    ensures forall b | b in Calls(acts[1..]) :: b in Calls(acts)
  {
  }

  lemma {:induction false} NoneLeft(c: Config, s: State, acts: seq<Action>)
    requires Calls(acts) == []
    ensures Accommodated(c, s, acts)
    decreases |acts|
  {
    if acts != [] {
      NoneLeft(c, Apply(c, s, acts[0]), acts[1..]);
    }
  }

  /** One more call behind an untimed one is told of its own response. */
  lemma UntimedThenOne(c: Config, s: State, b: Action, more: seq<Action>)
    requires ValidConfig(c) && Inv(c, s) && s.w.req.header.timeout.None? && s.w.gen + 1 < I32_LIMIT
    requires Runs(c, s, more) && Calls(more) == [b] && b.Start? && FitsIn(c, s, b)
    ensures var t := After(c, s, more); |t.rpcs| == |s.rpcs| + 1 && OwnRecords(c, t.rpcs)
  {
    OneFits(c, s, more, 1);
    UntimedNeverExpire(c, s, more);
    ExpiryRun(c, s, more);
    RecordsAreOwn(c, After(c, s, more));
    CallsBooked(c, s, more);
  }

  lemma UntimedPair(c: Config, s: State, a: Action, b: Action, more: seq<Action>)
    requires ValidConfig(c) && Inv(c, s) && Pair(c, s, a, b) && a.timeout.None?
    requires Runs(c, s, [a] + more) && Calls(more) == [b]
    ensures SecondIsOwn(c, s, After(c, s, [a] + more))
  {
    RestingBridge(c, s);
    assert ([a] + more)[1..] == more;
    StepInv(c, s, a);
    FirstStarted(c, s, a, b);
    UntimedThenOne(c, Apply(c, s, a), b, more);
  }

  lemma FirstStarted(c: Config, s: State, a: Action, b: Action)
    requires Pair(c, s, a, b) && a.timeout.None?
    ensures var t := Apply(c, s, a);
            && FitsIn(c, t, b) && t.w.gen == s.w.gen + 1 && t.w.req.header.timeout.None? && |t.rpcs| == |s.rpcs| + 1
  {
    SameRegion(c, s, a);
  }

  /**
   Exactly when a timeout is safe: for two calls in a row, where what is fetched for the first could not
   be true for the second, the second is told of its own response in all runs if and only if the first
   is made without a timeout.
   */
  lemma TimeoutExactlySafe(c: Config, s: State, a: Action, b: Action)
    requires ValidConfig(c) && Inv(c, s) && Pair(c, s, a, b)
    requires !OwnRecord(Crossed(c, s, a, b), c.world(s.w.gen + 2, SecondRequest(s, b)))
    ensures a.timeout.None? <==>
              forall more :: Runs(c, s, [a] + more) && Calls(more) == [b] ==> SecondIsOwn(c, s, After(c, s, [a] + more))
  {
    if a.timeout.None? {
      forall more | Runs(c, s, [a] + more) && Calls(more) == [b] ensures SecondIsOwn(c, s, After(c, s, [a] + more)) {
        UntimedPair(c, s, a, b, more);
      }
    } else {
      RestingBridge(c, s);
      var more := TimeoutCrossesCalls(c, s, a, b);
      var t := After(c, s, [a] + more);
      assert t.rpcs[|s.rpcs| + 1].req == SecondRequest(s, b);
      assert !SecondIsOwn(c, s, t);
    }
  }

  /** How a unary call ends on a response. */
  function UnaryOutcome(r: Response): Outcome {
    match r
    case Fails(e) => Failed(e)
    case Answers(status, head, chunks, ending) =>
      match ending
      case Done => Returned(status, head.headers, Flatten(chunks))
      case Breaks(e) => Failed(e)
  }

  /** For two unary calls the condition is that they are answered differently. */
  lemma UnaryPair(c: Config, s: State, a: Action, b: Action)
    requires a.Start? && a.kind == Unary && b.Start? && b.kind == Unary
    ensures var r, q := c.world(s.w.gen + 1, RequestOf(s, a)), c.world(s.w.gen + 2, SecondRequest(s, b));
            && Crossed(c, s, a, b).outcome == UnaryOutcome(r)
            && (OwnRecord(Crossed(c, s, a, b), q) <==> UnaryOutcome(r) == UnaryOutcome(q))
  {
  }

  /** For two streams whose bodies are not empty it is that they begin differently. */
  lemma StreamPair(c: Config, s: State, a: Action, b: Action)
    requires a.Start? && a.kind == ServerStream && b.Start? && b.kind == ServerStream
    requires NonEmpty(ChunksOf(c.world(s.w.gen + 1, RequestOf(s, a)))) != []
    requires NonEmpty(ChunksOf(c.world(s.w.gen + 2, SecondRequest(s, b)))) != []
    ensures var r, q := c.world(s.w.gen + 1, RequestOf(s, a)), c.world(s.w.gen + 2, SecondRequest(s, b));
            && Crossed(c, s, a, b).got == [NonEmpty(ChunksOf(r))[0]]
            && (OwnRecord(Crossed(c, s, a, b), q) <==> NonEmpty(ChunksOf(r))[0] == NonEmpty(ChunksOf(q))[0])
  {
  }
}
