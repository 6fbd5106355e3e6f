/** Putting the Arrow buffers of a query result together from the chunks they were split into. */
module Arrow {
  import opened Bytes

  /** The Arrow part of one response; None marks a field that is absent or not set. */
  datatype ArrowBatch = ArrowBatch(
    data: Bytes, chunkIndex: Option<int>, numChunks: Option<int>, startOffset: Option<int>, rowCount: Option<int>)

  datatype Response = Other | Arrow(batch: ArrowBatch)

  /** A decoded record batch: its contents do not matter here, its number of rows does. */
  datatype RecordBatch = RecordBatch(rows: nat, contents: Bytes)

  type Schema = Bytes

  datatype IpcStream = IpcStream(schema: Schema, batches: seq<RecordBatch>)

  /** The IPC decoder; None when it raises. */
  type Ipc = Bytes -> Option<IpcStream>

  datatype Fault =
    | OutOfOrder
    | NotAtStart
    | OffsetGap
    | Undecodable
    | RowCountMismatch
    | TruncatedResult

  datatype Result = Ok(batches: seq<RecordBatch>, schema: Option<Schema>) | Err(fault: Fault)

  // ---- reading the optional fields ------------------------------------------------------

  function OrZero(n: Option<int>): int {
    if n.Some? then n.value else 0
  }

  function ChunkIndex(ab: ArrowBatch): int {
    OrZero(ab.chunkIndex)
  }

  function NumChunks(ab: ArrowBatch): int {
    OrZero(ab.numChunks)
  }

  /** An absent or zero row count declares whatever was decoded. */
  function DeclaredRows(ab: ArrowBatch, decoded: nat): int {
    if OrZero(ab.rowCount) == 0 then decoded else OrZero(ab.rowCount)
  }

  function TotalRows(batches: seq<RecordBatch>): nat {
    if batches == [] then 0 else batches[0].rows + TotalRows(batches[1..])
  }

  lemma {:induction false} TotalRowsAppend(a: seq<RecordBatch>, b: seq<RecordBatch>)
    ensures TotalRows(a + b) == TotalRows(a) + TotalRows(b)
  {
    if a == [] {
      assert a + b == b;
    } else {
      assert (a + b)[0] == a[0] && (a + b)[1..] == a[1..] + b;
      TotalRowsAppend(a[1..], b);
    }
  }

  /** Every batch counts, once, and nothing else does. */
  lemma TotalRowsExact(a: seq<RecordBatch>, b: RecordBatch)
    ensures TotalRows([]) == 0 && TotalRows([b]) == b.rows && TotalRows(a + [b]) == TotalRows(a) + b.rows
  {
    assert [b][1..] == [];
    TotalRowsAppend(a, [b]);
  }

  // ---- the loop's state, one response at a time ---------------------------------------------

  /**
   `pending` are the chunks of the batch being assembled. `done` lists the buffers that were joined
   and decoded; the code does not keep them.
   */
  datatype Assembly =
    | Failed(fault: Fault)
    | Going(pending: seq<Bytes>, done: seq<Bytes>, batches: seq<RecordBatch>, schema: Option<Schema>, rows: nat)

  const START := Going([], [], [], None, 0)

  function Misplaced(a: Assembly, ab: ArrowBatch): Option<Fault>
    requires a.Going?
  {
    if a.pending != [] then
      if ChunkIndex(ab) != |a.pending| then Some(OutOfOrder) else None
    else if ChunkIndex(ab) != 0 then Some(NotAtStart)
    else if ab.startOffset.Some? && ab.startOffset.value != a.rows then Some(OffsetGap)
    else None
  }

  /** The batch is complete with this chunk. */
  predicate Closes(ab: ArrowBatch, held: nat) {
    NumChunks(ab) == 0 || held == NumChunks(ab)
  }

  function Complete(ipc: Ipc, a: Assembly, ab: ArrowBatch, buffer: Bytes): Assembly
    requires a.Going?
  {
    match ipc(buffer)
    case None => Failed(Undecodable)
    case Some(st) =>
      var n := TotalRows(st.batches);
      if DeclaredRows(ab, n) != n then Failed(RowCountMismatch)
      else
        var schema := if a.schema.None? then Some(st.schema) else a.schema;
        Going([], a.done + [buffer], a.batches + st.batches, schema, a.rows + n)
  }

  function Step(ipc: Ipc, a: Assembly, r: Response): Assembly {
    if a.Failed? || r.Other? then a
    else
      var bad := Misplaced(a, r.batch);
      if bad.Some? then Failed(bad.value)
      else
        var pending := a.pending + [r.batch.data];
        if Closes(r.batch, |pending|) then Complete(ipc, a, r.batch, Flatten(pending))
        else a.(pending := pending)
  }

  function Run(ipc: Ipc, a: Assembly, rs: seq<Response>): Assembly
    decreases |rs|
  {
    if rs == [] then a else Run(ipc, Step(ipc, a, rs[0]), rs[1..])
  }

  function ResultOf(a: Assembly): Result {
    match a
    case Failed(f) => Err(f)
    case Going(pending, _, batches, schema, _) => if pending == [] then Ok(batches, schema) else Err(TruncatedResult)
  }

  function Reassembled(ipc: Ipc, rs: seq<Response>): Result {
    ResultOf(Run(ipc, START, rs))
  }

  lemma {:induction false} RunAppend(ipc: Ipc, a: Assembly, p: seq<Response>, q: seq<Response>)
    ensures Run(ipc, a, p + q) == Run(ipc, Run(ipc, a, p), q)
    decreases |p|
  {
    if p == [] {
      assert p + q == q;
    } else {
      assert (p + q)[0] == p[0] && (p + q)[1..] == p[1..] + q;
      RunAppend(ipc, Step(ipc, a, p[0]), p[1..], q);
    }
  }

  lemma RunSnoc(ipc: Ipc, a: Assembly, p: seq<Response>, r: Response)
    ensures Run(ipc, a, p + [r]) == Step(ipc, Run(ipc, a, p), r)
  {
    RunAppend(ipc, a, p, [r]);
    assert [r][1..] == [];
  }

  lemma {:induction false} FailureStays(ipc: Ipc, a: Assembly, rs: seq<Response>)
    requires a.Failed?
    ensures Run(ipc, a, rs) == a
    decreases |rs|
  {
    if rs != [] {
      FailureStays(ipc, a, rs[1..]);
    }
  }

  /** The loop over the responses, as the client runs it. */
  method Reassemble(ipc: Ipc, responses: seq<Response>) returns (r: Result)
    ensures r == Reassembled(ipc, responses)
  {
    var batches: seq<RecordBatch> := [];
    var schema: Option<Schema> := None;
    var pending: seq<Bytes> := [];
    var rows := 0;
    ghost var done: seq<Bytes> := [];
    var i := 0;
    assert responses[..0] == [];
    while i < |responses|
      invariant i <= |responses|
      invariant Run(ipc, START, responses[..i]) == Going(pending, done, batches, schema, rows)
    {
      var resp := responses[i];
      ghost var before := Going(pending, done, batches, schema, rows);
      ghost var after := Step(ipc, before, resp);
      StepAt(ipc, responses, i);
      i := i + 1;
      if resp.Other? {
        continue;
      }
      var ab := resp.batch;
      var index := ChunkIndex(ab);
      if pending != [] {
        if index != |pending| {
          return Err(OutOfOrder);
        }
      } else {
        if index != 0 {
          return Err(NotAtStart);
        }
        if ab.startOffset.Some? && ab.startOffset.value != rows {
          return Err(OffsetGap);
        }
      }
      pending := pending + [ab.data];
      if NumChunks(ab) != 0 && |pending| != NumChunks(ab) {
        continue;
      }
      var buffer := Flatten(pending);
      pending := [];
      match ipc(buffer) {
        case None =>
          return Err(Undecodable);
        case Some(st) =>
          if schema.None? {
            schema := Some(st.schema);
          }
          var inBatch := CountRows(st.batches);
          batches := batches + st.batches;
          if DeclaredRows(ab, inBatch) != inBatch {
            return Err(RowCountMismatch);
          }
          rows := rows + inBatch;
          done := done + [buffer];
      }
    }
    assert responses[..|responses|] == responses;
    return if pending != [] then Err(TruncatedResult) else Ok(batches, schema);
  }

  method CountRows(batches: seq<RecordBatch>) returns (n: nat)
    ensures n == TotalRows(batches)
  {
    n := 0;
    for i := 0 to |batches|
      invariant n + TotalRows(batches[i..]) == TotalRows(batches)
    {
      n := n + batches[i].rows;
      assert batches[i..][1..] == batches[i + 1..];
    }
  }

  /** One more response; a failure now is the result, whatever follows. */
  lemma StepAt(ipc: Ipc, rs: seq<Response>, i: nat)
    requires i < |rs|
    ensures var a := Step(ipc, Run(ipc, START, rs[..i]), rs[i]);
            && Run(ipc, START, rs[..i + 1]) == a
            && (a.Failed? ==> Reassembled(ipc, rs) == Err(a.fault))
  {
    assert rs[..i + 1] == rs[..i] + [rs[i]];
    RunSnoc(ipc, START, rs[..i], rs[i]);
    var a := Run(ipc, START, rs[..i + 1]);
    assert rs == rs[..i + 1] + rs[i + 1..];
    RunAppend(ipc, START, rs[..i + 1], rs[i + 1..]);
    if a.Failed? {
      FailureStays(ipc, a, rs[i + 1..]);
    }
  }

  // ---- no byte is lost, moved or used twice ------------------------------------------------------

  function Batches(rs: seq<Response>): seq<ArrowBatch> {
    if rs == [] then [] else (if rs[0].Arrow? then [rs[0].batch] else []) + Batches(rs[1..])
  }

  function Datas(abs: seq<ArrowBatch>): seq<Bytes> {
    seq(|abs|, i requires 0 <= i < |abs| => abs[i].data)
  }

  /** What was decoded and what is pending, as one byte string. */
  function Consumed(a: Assembly): Bytes
    requires a.Going?
  {
    Flatten(a.done) + Flatten(a.pending)
  }

  lemma StepConserves(ipc: Ipc, a: Assembly, r: Response)
    requires a.Going? && Step(ipc, a, r).Going?
    ensures Consumed(Step(ipc, a, r)) == Consumed(a) + (if r.Arrow? then r.batch.data else [])
  {
    if r.Other? {
      assert Consumed(a) + [] == Consumed(a);
    } else {
      var pending := a.pending + [r.batch.data];
      FlattenSnoc(a.pending, r.batch.data);
      if Closes(r.batch, |pending|) {
        FlattenSnoc(a.done, Flatten(pending));
        assert Flatten(a.done) + (Flatten(a.pending) + r.batch.data) + [] == Consumed(a) + r.batch.data;
      } else {
        assert Flatten(a.done) + (Flatten(a.pending) + r.batch.data) == Consumed(a) + r.batch.data;
      }
    }
  }

  /**
   At every point of every stream the buffers decoded so far, followed by the pending chunks, are the
   data of all Arrow responses seen, in the order they arrived.
   */
  lemma {:induction false} BytesConserved(ipc: Ipc, a: Assembly, rs: seq<Response>)
    requires a.Going? && Run(ipc, a, rs).Going?
    ensures Consumed(Run(ipc, a, rs)) == Consumed(a) + Flatten(Datas(Batches(rs)))
    decreases |rs|
  {
    if rs == [] {
      assert Consumed(a) + [] == Consumed(a);
    } else {
      var b := Step(ipc, a, rs[0]);
      if b.Failed? {
        FailureStays(ipc, b, rs[1..]);
      }
      StepConserves(ipc, a, rs[0]);
      BytesConserved(ipc, b, rs[1..]);
      DatasCons(rs);
      Associate(Consumed(a), if rs[0].Arrow? then rs[0].batch.data else [], Flatten(Datas(Batches(rs[1..]))));
    }
  }

  lemma DatasCons(rs: seq<Response>)
    requires rs != []
    ensures Flatten(Datas(Batches(rs))) == (if rs[0].Arrow? then rs[0].batch.data else [])
              + Flatten(Datas(Batches(rs[1..])))
  {
    var rest := Batches(rs[1..]);
    if rs[0].Arrow? {
      ConsData(rs[0].batch, rest);
    } else {
      assert Batches(rs) == [] + rest == rest;
      assert [] + Flatten(Datas(rest)) == Flatten(Datas(rest));
    }
  }

  lemma ConsData(ab: ArrowBatch, rest: seq<ArrowBatch>)
    ensures Flatten(Datas([ab] + rest)) == ab.data + Flatten(Datas(rest))
  {
    assert Datas([ab] + rest) == [ab.data] + Datas(rest);
    assert ([ab.data] + Datas(rest))[1..] == Datas(rest);
  }

  lemma Associate<T>(a: seq<T>, b: seq<T>, c: seq<T>)
    ensures a + b + c == a + (b + c)
  {
  }

  // ---- only the Arrow responses matter ----------------------------------------------------------

  function Wrap(abs: seq<ArrowBatch>): seq<Response> {
    seq(|abs|, i requires 0 <= i < |abs| => Arrow(abs[i]))
  }

  lemma {:induction false} OnlyArrowMatters(ipc: Ipc, a: Assembly, rs: seq<Response>)
    ensures Run(ipc, a, rs) == Run(ipc, a, Wrap(Batches(rs)))
    decreases |rs|
  {
    if rs != [] {
      OnlyArrowMatters(ipc, Step(ipc, a, rs[0]), rs[1..]);
      if rs[0].Arrow? {
        assert Wrap(Batches(rs))[0] == rs[0];
        assert Wrap(Batches(rs))[1..] == Wrap(Batches(rs[1..]));
      } else {
        assert Batches(rs) == Batches(rs[1..]);
      }
    }
  }

  /** Inserting or dropping other responses anywhere changes nothing. */
  lemma OthersChangeNothing(ipc: Ipc, p: seq<Response>, q: seq<Response>)
    requires Batches(p) == Batches(q)
    ensures Reassembled(ipc, p) == Reassembled(ipc, q)
  {
    OnlyArrowMatters(ipc, START, p);
    OnlyArrowMatters(ipc, START, q);
  }

  // ---- exactly which streams are accepted -----------------------------------------------------------

  /** The chunk is the j-th of its batch; a chunk without an index can only be the first. */
  predicate HasIndex(ab: ArrowBatch, j: nat) {
    match ab.chunkIndex
    case None => j == 0
    case Some(i) => i == j
  }

  /** It is the last of its batch when `held` chunks are there: the count is absent, 0 or reached. */
  predicate IsLast(ab: ArrowBatch, held: nat) {
    match ab.numChunks
    case None => true
    case Some(n) => n == 0 || n == held
  }

  /** It declares no number of rows, or this one. */
  predicate MayHaveRows(ab: ArrowBatch, n: nat) {
    match ab.rowCount
    case None => true
    case Some(declared) => declared == 0 || declared == n
  }

  /** The chunks of one batch: indices count up from 0 and only the last chunk closes it. */
  ghost predicate IsGroup(g: seq<ArrowBatch>) {
    && g != []
    && (forall j | 0 <= j < |g| :: HasIndex(g[j], j))
    && (forall j | 0 <= j < |g| - 1 :: !IsLast(g[j], j + 1))
    && IsLast(g[|g| - 1], |g|)
  }

  function Joined(g: seq<ArrowBatch>): Bytes {
    Flatten(Datas(g))
  }

  /** The batch fits behind `rows` rows, decodes, and has as many rows as it declares. */
  ghost predicate GroupFits(ipc: Ipc, g: seq<ArrowBatch>, rows: nat)
    requires g != []
  {
    && (g[0].startOffset.Some? ==> g[0].startOffset.value == rows)
    && ipc(Joined(g)).Some?
    && MayHaveRows(g[|g| - 1], TotalRows(ipc(Joined(g)).value.batches))
  }

  /** Record batches of a list of groups, in order. */
  function GroupBatches(ipc: Ipc, groups: seq<seq<ArrowBatch>>): seq<RecordBatch> {
    if groups == [] then []
    else
      var first := if ipc(Joined(groups[0])).Some? then ipc(Joined(groups[0])).value.batches else [];
      first + GroupBatches(ipc, groups[1..])
  }

  /** The schema of the first batch. */
  function GroupSchema(ipc: Ipc, groups: seq<seq<ArrowBatch>>): Option<Schema> {
    if groups == [] || ipc(Joined(groups[0])).None? then None else Some(ipc(Joined(groups[0])).value.schema)
  }

  /** A grouping of the chunks in which every group is a batch that fits behind the ones before it. */
  ghost predicate Acceptable(ipc: Ipc, groups: seq<seq<ArrowBatch>>, rows: nat)
    decreases |groups|
  {
    groups != [] ==>
      && IsGroup(groups[0]) && GroupFits(ipc, groups[0], rows)
      && Acceptable(ipc, groups[1..], rows + TotalRows(ipc(Joined(groups[0])).value.batches))
  }

  /** Assembling the chunks of a group up to the last but one only collects them. */
  lemma {:induction false} CollectGroup(ipc: Ipc, a: Assembly, g: seq<ArrowBatch>, k: nat)
    requires a.Going? && a.pending == [] && IsGroup(g) && k < |g|
    requires g[0].startOffset.Some? ==> g[0].startOffset.value == a.rows
    ensures Run(ipc, a, Wrap(g[..k])) == a.(pending := Datas(g[..k]))
    decreases k
  {
    if k == 0 {
      assert Wrap(g[..0]) == [] && Datas(g[..0]) == [];
    } else {
      CollectGroup(ipc, a, g, k - 1);
      assert Wrap(g[..k]) == Wrap(g[..k - 1]) + [Arrow(g[k - 1])];
      RunSnoc(ipc, a, Wrap(g[..k - 1]), Arrow(g[k - 1]));
      assert !IsLast(g[k - 1], k - 1 + 1);
      assert Datas(g[..k]) == Datas(g[..k - 1]) + [g[k - 1].data];
    }
  }

  /** What becomes of a whole group. */
  function AfterGroup(ipc: Ipc, a: Assembly, g: seq<ArrowBatch>): Assembly
    requires a.Going? && g != []
  {
    Complete(ipc, a, g[|g| - 1], Joined(g))
  }

  lemma RunGroup(ipc: Ipc, a: Assembly, g: seq<ArrowBatch>)
    requires a.Going? && a.pending == [] && IsGroup(g)
    requires g[0].startOffset.Some? ==> g[0].startOffset.value == a.rows
    ensures Run(ipc, a, Wrap(g)) == AfterGroup(ipc, a, g)
  {
    var k := |g| - 1;
    CollectGroup(ipc, a, g, k);
    assert Wrap(g) == Wrap(g[..k]) + [Arrow(g[k])];
    RunSnoc(ipc, a, Wrap(g[..k]), Arrow(g[k]));
    assert Datas(g) == Datas(g[..k]) + [g[k].data];
  }

  lemma WrapAppend(a: seq<ArrowBatch>, b: seq<ArrowBatch>)
    ensures Wrap(a + b) == Wrap(a) + Wrap(b)
  {
  }

  /** Every acceptable grouping is reassembled, to the batches and the schema it stands for. */
  lemma {:induction false} AcceptableRuns(ipc: Ipc, a: Assembly, groups: seq<seq<ArrowBatch>>)
    requires a.Going? && a.pending == [] && Acceptable(ipc, groups, a.rows)
    ensures var b := Run(ipc, a, Wrap(Flatten(groups)));
            && b.Going? && b.pending == []
            && b.batches == a.batches + GroupBatches(ipc, groups)
            && b.schema == (if a.schema.Some? then a.schema else GroupSchema(ipc, groups))
            && b.rows == a.rows + TotalRows(GroupBatches(ipc, groups))
    decreases |groups|
  {
    if groups == [] {
      assert a.batches + [] == a.batches;
    } else {
      var g, rest := groups[0], groups[1..];
      WrapAppend(g, Flatten(rest));
      RunAppend(ipc, a, Wrap(g), Wrap(Flatten(rest)));
      RunGroup(ipc, a, g);
      var b := AfterGroup(ipc, a, g);
      var st := ipc(Joined(g)).value;
      AcceptableRuns(ipc, b, rest);
      TotalRowsAppend(st.batches, GroupBatches(ipc, rest));
      Associate(a.batches, st.batches, GroupBatches(ipc, rest));
    }
  }

  /** The chunks of a batch that is not complete yet. */
  ghost predicate IsOpen(tail: seq<ArrowBatch>, rows: nat) {
    && (forall j | 0 <= j < |tail| :: HasIndex(tail[j], j) && !IsLast(tail[j], j + 1))
    && (tail != [] && tail[0].startOffset.Some? ==> tail[0].startOffset.value == rows)
  }

  lemma SnocOfCons<T>(s: seq<T>, x: T)
    requires s != []
    ensures s + [x] == [s[0]] + (s[1..] + [x])
  {
  }

  lemma AcceptableCons(ipc: Ipc, g: seq<ArrowBatch>, groups: seq<seq<ArrowBatch>>, rows: nat)
    requires IsGroup(g) && GroupFits(ipc, g, rows)
    requires Acceptable(ipc, groups, rows + TotalRows(ipc(Joined(g)).value.batches))
    ensures Acceptable(ipc, [g] + groups, rows)
  {
    assert ([g] + groups)[1..] == groups;
  }

  lemma RowsCons(ipc: Ipc, groups: seq<seq<ArrowBatch>>)
    requires groups != [] && ipc(Joined(groups[0])).Some?
    ensures TotalRows(GroupBatches(ipc, groups)) ==
            TotalRows(ipc(Joined(groups[0])).value.batches) + TotalRows(GroupBatches(ipc, groups[1..]))
  {
    TotalRowsAppend(ipc(Joined(groups[0])).value.batches, GroupBatches(ipc, groups[1..]));
  }

  lemma AcceptableLonger(ipc: Ipc, groups: seq<seq<ArrowBatch>>, g: seq<ArrowBatch>, rows: nat)
    requires groups != [] && IsGroup(groups[0]) && GroupFits(ipc, groups[0], rows)
    requires Acceptable(ipc, groups[1..] + [g], rows + TotalRows(ipc(Joined(groups[0])).value.batches))
    ensures Acceptable(ipc, groups + [g], rows)
  {
    AcceptableCons(ipc, groups[0], groups[1..] + [g], rows);
    SnocOfCons(groups, g);
  }

  lemma {:induction false} AcceptableSnoc(ipc: Ipc, groups: seq<seq<ArrowBatch>>, g: seq<ArrowBatch>, rows: nat)
    requires Acceptable(ipc, groups, rows) && IsGroup(g)
    requires GroupFits(ipc, g, rows + TotalRows(GroupBatches(ipc, groups)))
    ensures Acceptable(ipc, groups + [g], rows)
    decreases |groups|
  {
    if groups == [] {
      AcceptableCons(ipc, g, [], rows);
      assert [] + [g] == [g] + [];
    } else {
      RowsCons(ipc, groups);
      AcceptableSnoc(ipc, groups[1..], g, rows + TotalRows(ipc(Joined(groups[0])).value.batches));
      AcceptableLonger(ipc, groups, g, rows);
    }
  }

  /** What was assembled without a fault is a list of acceptable groups and an open one. */
  ghost predicate Grouped(ipc: Ipc, abs: seq<ArrowBatch>, a: Assembly, groups: seq<seq<ArrowBatch>>,
                          tail: seq<ArrowBatch>) {
    && a.Going? && abs == Flatten(groups) + tail
    && Acceptable(ipc, groups, 0) && IsOpen(tail, a.rows)
    && a.pending == Datas(tail) && a.rows == TotalRows(GroupBatches(ipc, groups))
  }

  lemma {:induction false} GroupsOf(ipc: Ipc, abs: seq<ArrowBatch>)
    returns (groups: seq<seq<ArrowBatch>>, tail: seq<ArrowBatch>)
    requires Run(ipc, START, Wrap(abs)).Going?
    ensures Grouped(ipc, abs, Run(ipc, START, Wrap(abs)), groups, tail)
    decreases |abs|
  {
    if abs == [] {
      groups, tail := [], [];
    } else {
      var init, ab := abs[..|abs| - 1], abs[|abs| - 1];
      assert Wrap(abs) == Wrap(init) + [Arrow(ab)];
      RunSnoc(ipc, START, Wrap(init), Arrow(ab));
      groups, tail := GroupsOf(ipc, init);
      assert abs == init + [ab];
      groups, tail := GroupNext(ipc, init, Run(ipc, START, Wrap(init)), groups, tail, ab);
    }
  }

  /** A chunk that was taken is the next one of the open group. */
  lemma NextChunk(ipc: Ipc, a: Assembly, tail: seq<ArrowBatch>, ab: ArrowBatch)
    requires a.Going? && IsOpen(tail, a.rows) && a.pending == Datas(tail) && Step(ipc, a, Arrow(ab)).Going?
    ensures ChunkIndex(ab) == |tail| && Datas(tail + [ab]) == Datas(tail) + [ab.data]
    ensures !Closes(ab, |tail| + 1) ==>
              && Step(ipc, a, Arrow(ab)) == a.(pending := Datas(tail + [ab]))
              && IsOpen(tail + [ab], a.rows)
    ensures Closes(ab, |tail| + 1) ==> Step(ipc, a, Arrow(ab)).pending == []
  {
    assert |a.pending| == |tail|;
    assert Datas(tail + [ab]) == Datas(tail) + [ab.data];
  }

  /** One more chunk extends the open group, or closes it. */
  lemma GroupNext(ipc: Ipc, init: seq<ArrowBatch>, a: Assembly, groups: seq<seq<ArrowBatch>>, tail: seq<ArrowBatch>,
                  ab: ArrowBatch)
    returns (groups': seq<seq<ArrowBatch>>, tail': seq<ArrowBatch>)
    requires Grouped(ipc, init, a, groups, tail) && Step(ipc, a, Arrow(ab)).Going?
    ensures Grouped(ipc, init + [ab], Step(ipc, a, Arrow(ab)), groups', tail')
  {
    var g := tail + [ab];
    NextChunk(ipc, a, tail, ab);
    Associate(Flatten(groups), tail, [ab]);
    if Closes(ab, |g|) {
      groups', tail' := groups + [g], [];
      CloseGroup(ipc, a, groups, tail, ab);
      FlattenSnoc(groups, g);
      assert Flatten(groups') + [] == Flatten(groups) + g;
      assert Datas([]) == [];
    } else {
      groups', tail' := groups, g;
    }
  }

  lemma CloseGroup(ipc: Ipc, a: Assembly, groups: seq<seq<ArrowBatch>>, tail: seq<ArrowBatch>, ab: ArrowBatch)
    requires a.Going? && Acceptable(ipc, groups, 0) && IsOpen(tail, a.rows)
             && a.rows == TotalRows(GroupBatches(ipc, groups))
    requires a.pending == Datas(tail) && ChunkIndex(ab) == |tail| && Closes(ab, |tail| + 1)
    requires Step(ipc, a, Arrow(ab)).Going?
    ensures Acceptable(ipc, groups + [tail + [ab]], 0)
    ensures Step(ipc, a, Arrow(ab)).rows == TotalRows(GroupBatches(ipc, groups + [tail + [ab]]))
  {
    var g := tail + [ab];
    assert Datas(g) == Datas(tail) + [ab.data];
    assert IsGroup(g);
    assert GroupFits(ipc, g, a.rows);
    AcceptableSnoc(ipc, groups, g, 0);
    GroupBatchesSnoc(ipc, groups, g);
    TotalRowsAppend(GroupBatches(ipc, groups), ipc(Joined(g)).value.batches);
  }

  lemma {:induction false} GroupBatchesSnoc(ipc: Ipc, groups: seq<seq<ArrowBatch>>, g: seq<ArrowBatch>)
    requires ipc(Joined(g)).Some?
    ensures GroupBatches(ipc, groups + [g]) == GroupBatches(ipc, groups) + ipc(Joined(g)).value.batches
  {
    if groups == [] {
      assert [] + [g] == [g] && [g][1..] == [];
    } else {
      var more := groups + [g];
      assert more[0] == groups[0] && more[1..] == groups[1..] + [g];
      GroupBatchesSnoc(ipc, groups[1..], g);
      var first := if ipc(Joined(groups[0])).Some? then ipc(Joined(groups[0])).value.batches else [];
      Associate(first, GroupBatches(ipc, groups[1..]), ipc(Joined(g)).value.batches);
    }
  }

  /** `groups` is how the Arrow chunks of a stream fall into batches, and it gives this result. */
  ghost predicate Explains(ipc: Ipc, rs: seq<Response>, groups: seq<seq<ArrowBatch>>, batches: seq<RecordBatch>,
                           schema: Option<Schema>) {
    && Flatten(groups) == Batches(rs) && Acceptable(ipc, groups, 0)
    && batches == GroupBatches(ipc, groups) && schema == GroupSchema(ipc, groups)
  }

  /**
   A stream is accepted exactly when its Arrow chunks fall into groups that are complete batches in
   order, and then the result is what those groups decode to.
   */
  lemma ExactAcceptance(ipc: Ipc, rs: seq<Response>, batches: seq<RecordBatch>, schema: Option<Schema>)
    ensures Reassembled(ipc, rs) == Ok(batches, schema) <==> exists groups :: Explains(ipc, rs, groups, batches, schema)
  {
    OnlyArrowMatters(ipc, START, rs);
    var a := Run(ipc, START, Wrap(Batches(rs)));
    if Reassembled(ipc, rs) == Ok(batches, schema) {
      var groups, tail := GroupsOf(ipc, Batches(rs));
      assert tail == [] && Flatten(groups) + [] == Flatten(groups);
      AcceptableRuns(ipc, START, groups);
      assert [] + GroupBatches(ipc, groups) == GroupBatches(ipc, groups);
      assert Explains(ipc, rs, groups, batches, schema);
    }
    if groups :| Explains(ipc, rs, groups, batches, schema) {
      AcceptableRuns(ipc, START, groups);
      assert [] + GroupBatches(ipc, groups) == GroupBatches(ipc, groups);
    }
  }

  /**
   What becomes of one more complete batch, as far as its place is right: the exact reason for which it is
   refused, and what it adds otherwise.
   */
  lemma OneBatch(ipc: Ipc, a: Assembly, g: seq<ArrowBatch>)
    requires a.Going? && a.pending == [] && IsGroup(g)
    ensures var b, last := Run(ipc, a, Wrap(g)), g[|g| - 1];
            if g[0].startOffset.Some? && g[0].startOffset.value != a.rows then b == Failed(OffsetGap)
            else match ipc(Flatten(Datas(g)))
                 case None => b == Failed(Undecodable)
                 case Some(st) =>
                   if last.rowCount.Some? && last.rowCount.value != 0 && last.rowCount.value != TotalRows(st.batches)
                   then b == Failed(RowCountMismatch)
                   else b.Going? && b.pending == [] && b.batches == a.batches + st.batches
                        && b.rows == a.rows + TotalRows(st.batches)
                        && b.schema == (if a.schema.Some? then a.schema else Some(st.schema))
  {
    if g[0].startOffset.Some? && g[0].startOffset.value != a.rows {
      GapFails(ipc, a, g);
    } else {
      RunGroup(ipc, a, g);
    }
  }

  /** A chunk with the wrong index is refused, at the start of a batch and inside it. */
  lemma WrongIndex(ipc: Ipc, a: Assembly, ab: ArrowBatch)
    requires a.Going? && !HasIndex(ab, |a.pending|)
    ensures Step(ipc, a, Arrow(ab)) == Failed(if a.pending == [] then NotAtStart else OutOfOrder)
  {
  }

  /** There is at most one way to cut a list of chunks into groups. */
  lemma {:induction false} GroupingUnique(p: seq<seq<ArrowBatch>>, q: seq<seq<ArrowBatch>>)
    requires forall g | g in p :: IsGroup(g)
    requires forall g | g in q :: IsGroup(g)
    requires Flatten(p) == Flatten(q)
    ensures p == q
    decreases |p|
  {
    EmptyOnlyFromNothing(p);
    EmptyOnlyFromNothing(q);
    if p != [] {
      SameFirstGroup(p[0], Flatten(p[1..]), q[0], Flatten(q[1..]));
      GroupingUnique(p[1..], q[1..]);
      assert p == [p[0]] + p[1..] && q == [q[0]] + q[1..];
    }
  }

  lemma EmptyOnlyFromNothing(p: seq<seq<ArrowBatch>>)
    requires forall g | g in p :: IsGroup(g)
    ensures Flatten(p) == [] <==> p == []
  {
    if p != [] {
      assert IsGroup(p[0]);
    }
  }

  /** Of two groups a list of chunks begins with, neither is longer: both stop at the first closing chunk. */
  lemma GroupStops(all: seq<ArrowBatch>, g: seq<ArrowBatch>, h: seq<ArrowBatch>)
    requires IsGroup(g) && IsGroup(h) && g <= all && h <= all
    ensures |h| <= |g|
  {
    assert g[|g| - 1] == all[|g| - 1];
    assert IsLast(all[|g| - 1], |g| - 1 + 1);
    forall j | 0 <= j < |h| - 1 ensures !IsLast(all[j], j + 1) {
      assert h[j] == all[j];
    }
  }

  lemma SameFirstGroup(g: seq<ArrowBatch>, x: seq<ArrowBatch>, h: seq<ArrowBatch>, y: seq<ArrowBatch>)
    requires IsGroup(g) && IsGroup(h) && g + x == h + y
    ensures g == h && x == y
  {
    var all := g + x;
    GroupStops(all, g, h);
    GroupStops(all, h, g);
    assert g == all[..|g|] && h == (h + y)[..|h|];
    assert x == all[|g|..] && y == (h + y)[|h|..];
  }

  // ---- splitting a batch into chunks -----------------------------------------------------------

  /** One batch as a server has it: its buffer in pieces, and what it declares. */
  datatype ServerBatch = ServerBatch(pieces: seq<Bytes>, startOffset: Option<int>, rowCount: Option<int>)

  function Whole(b: ServerBatch): seq<ArrowBatch> {
    [ArrowBatch(Flatten(b.pieces), None, None, b.startOffset, b.rowCount)]
  }

  function Chunked(b: ServerBatch): seq<ArrowBatch> {
    seq(|b.pieces|, j requires 0 <= j < |b.pieces| =>
      ArrowBatch(b.pieces[j], Some(j), Some(|b.pieces|), b.startOffset, b.rowCount))
  }

  function SendWhole(bs: seq<ServerBatch>): seq<ArrowBatch> {
    if bs == [] then [] else Whole(bs[0]) + SendWhole(bs[1..])
  }

  function SendChunked(bs: seq<ServerBatch>): seq<ArrowBatch> {
    if bs == [] then [] else Chunked(bs[0]) + SendChunked(bs[1..])
  }

  lemma ChunkedIsGroup(b: ServerBatch)
    requires b.pieces != []
    ensures IsGroup(Chunked(b)) && IsGroup(Whole(b)) && Joined(Chunked(b)) == Joined(Whole(b))
  {
    assert Datas(Chunked(b)) == b.pieces;
    assert Datas(Whole(b)) == [Flatten(b.pieces)];
    FlattenSnoc([], Flatten(b.pieces));
    assert [] + [Flatten(b.pieces)] == [Flatten(b.pieces)];
    assert Flatten<byte>([]) + Flatten(b.pieces) == Flatten(b.pieces);
  }

  /** One batch, whole or in pieces, takes the assembly to the same state. */
  lemma ChunkedRuns(ipc: Ipc, a: Assembly, b: ServerBatch)
    requires a.Going? && a.pending == [] && b.pieces != []
    ensures Run(ipc, a, Wrap(Chunked(b))) == Run(ipc, a, Wrap(Whole(b)))
  {
    ChunkedIsGroup(b);
    if b.startOffset.Some? && b.startOffset.value != a.rows {
      GapFails(ipc, a, Chunked(b));
      GapFails(ipc, a, Whole(b));
    } else {
      RunGroup(ipc, a, Chunked(b));
      RunGroup(ipc, a, Whole(b));
    }
  }

  lemma GapFails(ipc: Ipc, a: Assembly, g: seq<ArrowBatch>)
    requires a.Going? && a.pending == [] && IsGroup(g)
    requires g[0].startOffset.Some? && g[0].startOffset.value != a.rows
    ensures Run(ipc, a, Wrap(g)) == Failed(OffsetGap)
  {
    FailureStays(ipc, Failed(OffsetGap), Wrap(g)[1..]);
  }

  /** However the server splits its batches, the client gets the same result, or the same fault. */
  lemma {:induction false} SplitInvariance(ipc: Ipc, a: Assembly, bs: seq<ServerBatch>)
    requires a.Failed? || a.pending == []
    requires forall b | b in bs :: b.pieces != []
    ensures Run(ipc, a, Wrap(SendChunked(bs))) == Run(ipc, a, Wrap(SendWhole(bs)))
    decreases |bs|
  {
    if a.Failed? {
      FailureStays(ipc, a, Wrap(SendChunked(bs)));
      FailureStays(ipc, a, Wrap(SendWhole(bs)));
    } else if bs != [] {
      ChunkedRuns(ipc, a, bs[0]);
      WrapAppend(Chunked(bs[0]), SendChunked(bs[1..]));
      WrapAppend(Whole(bs[0]), SendWhole(bs[1..]));
      RunAppend(ipc, a, Wrap(Chunked(bs[0])), Wrap(SendChunked(bs[1..])));
      RunAppend(ipc, a, Wrap(Whole(bs[0])), Wrap(SendWhole(bs[1..])));
      WholeLeavesNothing(ipc, a, bs[0]);
      SplitInvariance(ipc, Run(ipc, a, Wrap(Whole(bs[0]))), bs[1..]);
    }
  }

  lemma WholeLeavesNothing(ipc: Ipc, a: Assembly, b: ServerBatch)
    requires a.Going? && a.pending == []
    ensures var t := Run(ipc, a, Wrap(Whole(b))); t.Failed? || t.pending == []
  {
    var ab := Whole(b)[0];
    assert Wrap(Whole(b)) == [] + [Arrow(ab)];
    RunSnoc(ipc, a, [], Arrow(ab));
  }

  /** A stream that stops inside a batch is refused. */
  lemma StopInsideBatch(ipc: Ipc, groups: seq<seq<ArrowBatch>>, g: seq<ArrowBatch>, k: nat)
    requires Acceptable(ipc, groups, 0) && IsGroup(g) && 0 < k < |g|
    requires g[0].startOffset.Some? ==> g[0].startOffset.value == TotalRows(GroupBatches(ipc, groups))
    ensures Reassembled(ipc, Wrap(Flatten(groups) + g[..k])) == Err(TruncatedResult)
  {
    AcceptableRuns(ipc, START, groups);
    var a := Run(ipc, START, Wrap(Flatten(groups)));
    WrapAppend(Flatten(groups), g[..k]);
    RunAppend(ipc, START, Wrap(Flatten(groups)), Wrap(g[..k]));
    CollectGroup(ipc, a, g, k);
    assert |Datas(g[..k])| == k;
  }

  // ---- streams that are cut off ---------------------------------------------------------------------

  lemma {:induction false} BatchesAppend(p: seq<Response>, q: seq<Response>)
    ensures Batches(p + q) == Batches(p) + Batches(q)
  {
    if p == [] {
      assert p + q == q;
    } else {
      assert (p + q)[0] == p[0] && (p + q)[1..] == p[1..] + q;
      BatchesAppend(p[1..], q);
      Associate(if p[0].Arrow? then [p[0].batch] else [], Batches(p[1..]), Batches(q));
    }
  }

  lemma FlattenTake<T>(groups: seq<seq<T>>, i: nat)
    requires i < |groups|
    ensures Flatten(groups[..i + 1]) == Flatten(groups[..i]) + groups[i]
  {
    assert groups[..i + 1] == groups[..i] + [groups[i]];
    FlattenSnoc(groups[..i], groups[i]);
  }

  /** Of a list that begins with `a + b`, what is longer than `a` and no longer than both. */
  lemma CutBetween<T>(all: seq<T>, a: seq<T>, b: seq<T>, n: nat)
    requires a + b <= all && |a| <= n <= |a| + |b|
    ensures all[..n] == a + b[..n - |a|]
  {
  }

  /** The last group that is complete within the first `n` chunks. */
  lemma {:induction false} CompleteGroups<T>(groups: seq<seq<T>>, n: nat, from: nat) returns (i: nat)
    requires from <= |groups| && |Flatten(groups[..from])| <= n <= |Flatten(groups)|
    ensures i <= |groups| && |Flatten(groups[..i])| <= n
    ensures if i < |groups| then n < |Flatten(groups[..i + 1])| else n == |Flatten(groups)|
    decreases |groups| - from
  {
    i := from;
    if from == |groups| {
      assert groups[..from] == groups;
    } else if |Flatten(groups[..from + 1])| <= n {
      i := CompleteGroups(groups, n, from + 1);
    }
  }

  /** The first groups of an acceptable grouping are acceptable. */
  lemma {:induction false} AcceptablePrefix(ipc: Ipc, groups: seq<seq<ArrowBatch>>, i: nat, rows: nat)
    requires Acceptable(ipc, groups, rows) && i <= |groups|
    ensures Acceptable(ipc, groups[..i], rows)
    decreases i
  {
    if i > 0 {
      TakeTail(groups, i);
      AcceptablePrefix(ipc, groups[1..], i - 1, rows + TotalRows(ipc(Joined(groups[0])).value.batches));
      AcceptableCons(ipc, groups[0], groups[1..][..i - 1], rows);
    }
  }

  /** The next group fits behind them. */
  lemma {:induction false} NextFits(ipc: Ipc, groups: seq<seq<ArrowBatch>>, i: nat, rows: nat)
    requires Acceptable(ipc, groups, rows) && i < |groups|
    ensures IsGroup(groups[i]) && GroupFits(ipc, groups[i], rows + TotalRows(GroupBatches(ipc, groups[..i])))
    decreases i
  {
    if i > 0 {
      TakeTail(groups, i);
      NextFits(ipc, groups[1..], i - 1, rows + TotalRows(ipc(Joined(groups[0])).value.batches));
      RowsCons(ipc, groups[..i]);
    }
  }

  lemma TakeTail<T>(s: seq<T>, i: nat)
    requires 0 < i <= |s|
    ensures s[..i] == [s[0]] + s[1..][..i - 1] && s[..i][1..] == s[1..][..i - 1]
    ensures i < |s| ==> s[i] == s[1..][i - 1]
  {
  }

  /** The result of the groups that are complete; a part of another one makes it a truncated one. */
  ghost predicate PrefixResult(ipc: Ipc, groups: seq<seq<ArrowBatch>>, abs: seq<ArrowBatch>, i: nat, r: Result) {
    && i <= |groups| && Flatten(groups[..i]) <= abs <= Flatten(groups)
    && (i < |groups| ==> |abs| < |Flatten(groups[..i + 1])|)
    && r == if abs == Flatten(groups[..i]) then Ok(GroupBatches(ipc, groups[..i]), GroupSchema(ipc, groups[..i]))
            else Err(TruncatedResult)
  }

  /** Any part of a good stream from its start gives the batches that are complete in it, or is refused as truncated. */
  lemma CutStream(ipc: Ipc, rs: seq<Response>, groups: seq<seq<ArrowBatch>>, k: nat) returns (i: nat)
    requires Flatten(groups) == Batches(rs) && Acceptable(ipc, groups, 0) && k <= |rs|
    ensures PrefixResult(ipc, groups, Batches(rs[..k]), i, Reassembled(ipc, rs[..k]))
  {
    var abs := Batches(rs[..k]);
    assert rs == rs[..k] + rs[k..];
    BatchesAppend(rs[..k], rs[k..]);
    i := CutGroups(ipc, groups, abs);
    OnlyArrowMatters(ipc, START, rs[..k]);
  }

  lemma CutGroups(ipc: Ipc, groups: seq<seq<ArrowBatch>>, abs: seq<ArrowBatch>) returns (i: nat)
    requires Acceptable(ipc, groups, 0) && abs <= Flatten(groups)
    ensures PrefixResult(ipc, groups, abs, i, Reassembled(ipc, Wrap(abs)))
  {
    i := CompleteGroups(groups, |abs|, 0);
    Between(groups, abs, i);
    AcceptablePrefix(ipc, groups, i, 0);
    if abs == Flatten(groups[..i]) {
      AllComplete(ipc, groups[..i]);
    } else {
      NextFits(ipc, groups, i, 0);
      StopInside(ipc, groups, abs, i);
    }
  }

  /** The complete groups are a part of what was cut; unless they are all of it, another one follows. */
  lemma Between<T>(groups: seq<seq<T>>, abs: seq<T>, i: nat)
    requires i <= |groups| && abs <= Flatten(groups) && |Flatten(groups[..i])| <= |abs|
    requires i == |groups| ==> |abs| == |Flatten(groups)|
    ensures Flatten(groups[..i]) <= abs
    ensures abs != Flatten(groups[..i]) ==> i < |groups| && |Flatten(groups[..i])| < |abs|
  {
    FlattenPrefix(groups[..i], groups);
    if i == |groups| {
      assert groups[..i] == groups;
    }
    assert abs == Flatten(groups)[..|abs|] && Flatten(groups[..i]) == Flatten(groups)[..|Flatten(groups[..i])|];
  }

  lemma AllComplete(ipc: Ipc, groups: seq<seq<ArrowBatch>>)
    requires Acceptable(ipc, groups, 0)
    ensures Reassembled(ipc, Wrap(Flatten(groups))) == Ok(GroupBatches(ipc, groups), GroupSchema(ipc, groups))
  {
    AcceptableRuns(ipc, START, groups);
    assert [] + GroupBatches(ipc, groups) == GroupBatches(ipc, groups);
  }

  lemma StopInside(ipc: Ipc, groups: seq<seq<ArrowBatch>>, abs: seq<ArrowBatch>, i: nat)
    requires i < |groups| && abs <= Flatten(groups)
    requires |Flatten(groups[..i])| < |abs| < |Flatten(groups[..i + 1])|
    requires Acceptable(ipc, groups[..i], 0)
    requires IsGroup(groups[i]) && GroupFits(ipc, groups[i], TotalRows(GroupBatches(ipc, groups[..i])))
    ensures Reassembled(ipc, Wrap(abs)) == Err(TruncatedResult)
  {
    var k := |abs| - |Flatten(groups[..i])|;
    FlattenTake(groups, i);
    FlattenPrefix(groups[..i + 1], groups);
    CutBetween(Flatten(groups), Flatten(groups[..i]), groups[i], |abs|);
    assert abs == Flatten(groups)[..|abs|] == Flatten(groups[..i]) + groups[i][..k];
    StopInsideBatch(ipc, groups[..i], groups[i], k);
  }
}
