/**
  The Kafka to ClickHouse ingestion worker: an at-least-once consumer of two topics.

  `World` holds what the worker remembers per topic (batch, pending offsets, linger mark,
  failure count), what the consumer and the broker hold (fetch position, committed position,
  paused partitions) and what the sink has accepted.  The functions say what one poll, one
  flush, one resume and one shutdown do; the class `Worker` does the same step by step.

  The partition logs are a parameter: `log` is the final content of every partition, of which
  a poll may fetch any amount, so a run over a growing log is a run over its final content.
*/
module IngestionWorker {
  import Sequences

  datatype Topic = LogsTopic | TracesTopic

  datatype Partition = Partition(topic: Topic, index: nat)

  // `_tenant_id` is any JSON value; lists and objects cannot be dictionary keys.
  datatype Tenant = Named(id: string) | Unhashable

  // `storable`: the code that turns a payload into rows accepts it.  It is a matter of the payload
  // alone: a log whose timestamp is out of range, or a trace of the wrong shape, always raises.
  datatype Payload = Payload(text: string, storable: bool)

  datatype Message = Malformed | Decodable(payload: Payload, tenant: Tenant)

  type Log = map<Partition, seq<Message>>

  // A batch entry, tagged with where it came from.  The tag is never read by the worker.
  datatype Record = Record(payload: Payload, tenant: Tenant, partition: Partition, offset: nat)

  datatype TopicState = TopicState(batch: seq<Record>, offsets: map<Partition, nat>, last: real, fails: nat)

  datatype Status = Running | Unwinding | Stopped

  datatype World = World(
    logs: TopicState,
    traces: TopicState,
    position: map<Partition, nat>,
    committed: map<Partition, nat>,
    paused: set<Partition>,
    sink: seq<Record>,
    status: Status)
  {
    function Of(t: Topic): TopicState {
      match t
      case LogsTopic => logs
      case TracesTopic => traces
    }

    function With(t: Topic, st: TopicState): World {
      match t
      case LogsTopic => this.(logs := st)
      case TracesTopic => this.(traces := st)
    }

    // auto_offset_reset="earliest": a group with no position or no commit starts at 0.
    function Pos(p: Partition): nat {
      if p in position then position[p] else 0
    }

    function Com(p: Partition): nat {
      if p in committed then committed[p] else 0
    }
  }

  const BATCH_SIZE := 1000
  const LINGER_SECONDS := 2.0
  const MAX_BATCH := BATCH_SIZE * 10

  function Messages(log: Log, p: Partition): seq<Message> {
    if p in log then log[p] else []
  }

  // ---------------------------------------------------------------- polling

  datatype Fetch = Fetch(partition: Partition, count: nat)

  predicate CanFetch(w: World, log: Log, f: Fetch) {
    f.partition !in w.paused && w.Pos(f.partition) + f.count <= |Messages(log, f.partition)|
  }

  // The decodable messages among `msgs`, which start at offset `from` of `p`.
  function Decoded(p: Partition, from: nat, msgs: seq<Message>): seq<Record> {
    if msgs == [] then []
    else
      var rest := Decoded(p, from, msgs[..|msgs| - 1]);
      match msgs[|msgs| - 1]
      case Malformed => rest
      case Decodable(payload, tenant) => rest + [Record(payload, tenant, p, from + |msgs| - 1)]
  }

  function Max(a: int, b: int): int {
    if a < b then b else a
  }

  // The highest offset taken responsibility for after seeing `n` messages from `from` on.
  function Tracked(offsets: map<Partition, nat>, p: Partition, from: nat, n: nat): map<Partition, nat> {
    if n == 0 then offsets
    else offsets[p := Max(if p in offsets then offsets[p] else -1, from + n - 1)]
  }

  function TakeMessages(st: TopicState, p: Partition, from: nat, msgs: seq<Message>): TopicState {
    st.(batch := st.batch + Decoded(p, from, msgs), offsets := Tracked(st.offsets, p, from, |msgs|))
  }

  function IngestOne(w: World, log: Log, f: Fetch): World {
    if !CanFetch(w, log, f) then w
    else
      var from := w.Pos(f.partition);
      var msgs := Messages(log, f.partition)[from..from + f.count];
      var t := f.partition.topic;
      w.With(t, TakeMessages(w.Of(t), f.partition, from, msgs))
       .(position := w.position[f.partition := from + f.count])
  }

  function Ingest(w: World, log: Log, fetches: seq<Fetch>): World {
    if fetches == [] then w
    else IngestOne(Ingest(w, log, fetches[..|fetches| - 1]), log, fetches[|fetches| - 1])
  }

  // ---------------------------------------------------------------- flushing

  // The store's answer to one insert.  A refused insert, whether it returned False or raised,
  // may still have left a prefix of its rows behind.
  datatype Insert = Accepted | Refused(landed: nat)

  datatype Outcome = Written | Rejected | Raised

  datatype FlushResult = FlushResult(outcome: Outcome, rows: seq<Record>)

  // What the outside world answers during one flush: per tenant for logs, per position in the
  // batch for traces, and whether a database session could be opened and closed.
  datatype Answers = Answers(tenants: Tenant -> Insert, traces: nat -> Insert, sessionOpens: bool, sessionCloses: bool)

  predicate Storable(rows: seq<Record>) {
    forall r <- rows :: r.payload.storable
  }

  // All rows of one insert are converted before any is sent.
  predicate Takes(rows: seq<Record>, answer: Insert) {
    Storable(rows) && answer.Accepted?
  }

  function Landed(rows: seq<Record>, answer: Insert): seq<Record> {
    if !Storable(rows) then []
    else
      match answer
      case Accepted => rows
      case Refused(n) => if n < |rows| then rows[..n] else rows
  }

  predicate Groupable(batch: seq<Record>) {
    forall r <- batch :: r.tenant != Unhashable
  }

  function ForTenant(batch: seq<Record>, t: Tenant): seq<Record> {
    if batch == [] then []
    else
      var rest := ForTenant(batch[..|batch| - 1], t);
      if batch[|batch| - 1].tenant == t then rest + [batch[|batch| - 1]] else rest
  }

  // The tenants of `batch` in order of first appearance.
  function Tenants(batch: seq<Record>): seq<Tenant> {
    if batch == [] then []
    else
      var rest := Tenants(batch[..|batch| - 1]);
      if batch[|batch| - 1].tenant in rest then rest else rest + [batch[|batch| - 1].tenant]
  }

  function TenantRows(batch: seq<Record>, order: seq<Tenant>, a: Answers): seq<Record> {
    if order == [] then []
    else
      var t := order[|order| - 1];
      TenantRows(batch, order[..|order| - 1], a) + Landed(ForTenant(batch, t), a.tenants(t))
  }

  function FlushLogs(batch: seq<Record>, a: Answers): FlushResult {
    if !Groupable(batch) then FlushResult(Raised, [])
    else
      var order := Tenants(batch);
      FlushResult(if forall t <- order :: Takes(ForTenant(batch, t), a.tenants(t)) then Written else Rejected,
                  TenantRows(batch, order, a))
  }

  function TraceRows(batch: seq<Record>, a: Answers): seq<Record> {
    if batch == [] then []
    else
      var n := |batch| - 1;
      TraceRows(batch[..n], a) + Landed([batch[n]], a.traces(n))
  }

  // Each trace is an insert of its own.
  predicate TraceTaken(batch: seq<Record>, i: nat, a: Answers)
    requires i < |batch|
  {
    Takes([batch[i]], a.traces(i))
  }

  function FlushTraces(batch: seq<Record>, a: Answers): FlushResult {
    if !a.sessionOpens then FlushResult(Raised, [])
    else if !a.sessionCloses then FlushResult(Raised, TraceRows(batch, a))
    else FlushResult(if forall i | 0 <= i < |batch| :: TraceTaken(batch, i, a) then Written else Rejected,
                     TraceRows(batch, a))
  }

  function Flush(t: Topic, batch: seq<Record>, a: Answers): FlushResult {
    match t
    case LogsTopic => FlushLogs(batch, a)
    case TracesTopic => FlushTraces(batch, a)
  }

  // A commit that raises may have been applied to any of its partitions.
  datatype Commit = Acked | CommitRaised(applied: set<Partition>)

  function CommitOffsets(w: World, offsets: map<Partition, nat>, c: Commit): World {
    var next := map p | p in offsets && (c.CommitRaised? ==> p in c.applied) :: offsets[p] + 1;
    w.(committed := w.committed + next, status := if c.Acked? then w.status else Unwinding)
  }

  predicate Due(st: TopicState, now: real) {
    st.batch != [] && (|st.batch| >= BATCH_SIZE || now - st.last >= LINGER_SECONDS)
  }

  // What the loop does with the flush's answer.
  function Settle(w: World, t: Topic, outcome: Outcome, after: real, c: Commit): World {
    var st := w.Of(t);
    var cleared := TopicState([], map[], after, 0);
    match outcome
    case Raised => w.(status := Unwinding)
    case Written =>
      if st.offsets == map[] then w.With(t, cleared)
      else
        var w' := CommitOffsets(w, st.offsets, c);
        if c.Acked? then w'.With(t, cleared) else w'
    case Rejected =>
      w.With(t, st.(fails := st.fails + 1, last := after))
       .(paused := if |st.batch| > MAX_BATCH then w.paused + st.offsets.Keys else w.paused)
  }

  // One pass of the flush loop for topic `t`: clocked at `now`, done at `after`.
  function FlushTopic(w: World, t: Topic, now: real, after: real, a: Answers, c: Commit): World {
    if !Due(w.Of(t), now) then w
    else
      var r := Flush(t, w.Of(t).batch, a);
      Settle(w.(sink := w.sink + r.rows), t, r.outcome, after, c)
  }

  function ResumeTopic(w: World, t: Topic): World {
    if w.Of(t).fails == 0 && w.Of(t).batch == []
    then w.(paused := set p | p in w.paused && p.topic != t)
    else w
  }

  // ---------------------------------------------------------------- shutdown and restart

  // One topic of the `finally` block; the second result says whether the loop goes on.
  function DrainTopic(w: World, t: Topic, a: Answers, c: Commit): (World, bool) {
    var st := w.Of(t);
    if st.batch == [] then (w, true)
    else
      var r := Flush(t, st.batch, a);
      var w1 := w.(sink := w.sink + r.rows);
      if r.outcome != Written || st.offsets == map[] then (w1, r.outcome != Raised)
      else (CommitOffsets(w1, st.offsets, c), c.Acked?)
  }

  function Shutdown(w: World, a0: Answers, c0: Commit, a1: Answers, c1: Commit): World {
    var (w1, goOn) := DrainTopic(w, LogsTopic, a0, c0);
    var w2 := if goOn then DrainTopic(w1, TracesTopic, a1, c1).0 else w1;
    w2.(status := Stopped)
  }

  // A new process of the same consumer group: memory is gone, fetching starts at the commits.
  function Restart(w: World, clock: real): World {
    var empty := TopicState([], map[], clock, 0);
    World(empty, empty, w.committed, w.committed, {}, w.sink, Running)
  }

  // ---------------------------------------------------------------- runs

  datatype Step =
    | Poll(fetches: seq<Fetch>)
    | FlushStep(topic: Topic, now: real, after: real, answers: Answers, commit: Commit)
    | Resume
    | Stop(a0: Answers, c0: Commit, a1: Answers, c1: Commit)
    | Revive(clock: real)  // after a stop, or after a kill at any point

  // Poll, flush and resume belong to the loop, which an exception leaves for good.
  function Next(w: World, log: Log, s: Step): World {
    match s
    case Poll(fetches) => if w.status == Running then Ingest(w, log, fetches) else w
    case FlushStep(t, now, after, a, c) => if w.status == Running then FlushTopic(w, t, now, after, a, c) else w
    case Resume => if w.status == Running then ResumeTopic(ResumeTopic(w, LogsTopic), TracesTopic) else w
    case Stop(a0, c0, a1, c1) => if w.status == Stopped then w else Shutdown(w, a0, c0, a1, c1)
    case Revive(clock) => Restart(w, clock)
  }

  function Run(w: World, log: Log, steps: seq<Step>): World {
    if steps == [] then w
    else Next(Run(w, log, steps[..|steps| - 1]), log, steps[|steps| - 1])
  }

  function Initial(clock: real): World {
    var empty := TopicState([], map[], clock, 0);
    World(empty, empty, map[], map[], {}, [], Running)
  }

  // One turn of the `while True` loop.
  datatype Cycle = Cycle(
    fetches: seq<Fetch>,
    now0: real, after0: real, answers0: Answers, commit0: Commit,
    now1: real, after1: real, answers1: Answers, commit1: Commit)
  {
    function Steps(): seq<Step> {
      [Poll(fetches),
       FlushStep(LogsTopic, now0, after0, answers0, commit0),
       FlushStep(TracesTopic, now1, after1, answers1, commit1),
       Resume]
    }
  }

  function Turn(w: World, log: Log, c: Cycle): World {
    Run(w, log, c.Steps())
  }

  // ---------------------------------------------------------------- durability

  ghost predicate IsRecord(log: Log, r: Record) {
    r.offset < |Messages(log, r.partition)|
    && Messages(log, r.partition)[r.offset] == Decodable(r.payload, r.tenant)
  }

  // Every decodable message below a committed offset is in the sink; every fetched one is in
  // the sink or in its topic's batch.
  ghost predicate Durable(w: World, log: Log) {
    && (forall r: Record :: IsRecord(log, r) && r.offset < w.Com(r.partition) ==> r in w.sink)
    && (forall r: Record :: IsRecord(log, r) && r.offset < w.Pos(r.partition)
                            ==> r in w.sink || r in w.Of(r.partition.topic).batch)
  }

  // A partition is fetched up to just after its pending offset, or its commit when none is pending.
  ghost predicate PositionsAgree(w: World, log: Log) {
    forall p: Partition ::
      && w.Com(p) <= w.Pos(p) <= |Messages(log, p)|
      && (if p in w.Of(p.topic).offsets then w.Pos(p) == w.Of(p.topic).offsets[p] + 1 else w.Pos(p) == w.Com(p))
  }

  // Nothing is invented: batches hold fetched messages of their own topic, the sink holds messages.
  ghost predicate Sound(w: World, log: Log) {
    && (forall t: Topic, p: Partition :: p in w.Of(t).offsets ==> p.topic == t)
    && (forall t: Topic, r: Record :: r in w.Of(t).batch
                                      ==> IsRecord(log, r) && r.partition.topic == t && r.offset < w.Pos(r.partition))
    && (forall r <- w.sink :: IsRecord(log, r))
  }

  ghost predicate Inv(w: World, log: Log) {
    Durable(w, log) && PositionsAgree(w, log) && Sound(w, log)
  }

  lemma {:induction false} DecodedContent(p: Partition, from: nat, msgs: seq<Message>)
    ensures forall r: Record :: r in Decoded(p, from, msgs) <==>
              r.partition == p && from <= r.offset < from + |msgs|
              && msgs[r.offset - from] == Decodable(r.payload, r.tenant)
    ensures forall r: Record :: multiset(Decoded(p, from, msgs))[r] <= 1
  {
    if msgs != [] {
      DecodedContent(p, from, msgs[..|msgs| - 1]);
    }
  }

  lemma FetchedContent(log: Log, p: Partition, from: nat, n: nat)
    requires from + n <= |Messages(log, p)|
    ensures var rows := Decoded(p, from, Messages(log, p)[from..from + n]);
            && (forall r: Record :: r in rows <==> r.partition == p && from <= r.offset < from + n && IsRecord(log, r))
            && (forall r: Record :: multiset(rows)[r] <= 1)
  {
    var msgs := Messages(log, p)[from..from + n];
    DecodedContent(p, from, msgs);
    forall r: Record | from <= r.offset < from + n ensures msgs[r.offset - from] == Messages(log, p)[r.offset] {
    }
  }

  lemma FetchedOnce(log: Log, p: Partition, from: nat, n: nat, r: Record)
    requires from + n <= |Messages(log, p)|
    ensures multiset(Decoded(p, from, Messages(log, p)[from..from + n]))[r]
         == if r.partition == p && from <= r.offset < from + n && IsRecord(log, r) then 1 else 0
  {
    FetchedContent(log, p, from, n);
    assert r in Decoded(p, from, Messages(log, p)[from..from + n])
      <==> multiset(Decoded(p, from, Messages(log, p)[from..from + n]))[r] > 0;
  }

  // What one fetch changes, seen through the accessors.
  lemma IngestOneEffect(w: World, log: Log, f: Fetch)
    requires CanFetch(w, log, f)
    ensures var w', p, from := IngestOne(w, log, f), f.partition, w.Pos(f.partition);
            && (forall q: Partition :: w'.Pos(q) == if q == p then from + f.count else w.Pos(q))
            && w'.committed == w.committed && w'.sink == w.sink && w'.status == w.status
            && (forall t: Topic :: t != p.topic ==> w'.Of(t) == w.Of(t))
            && w'.Of(p.topic).batch
               == w.Of(p.topic).batch + Decoded(p, from, Messages(log, p)[from..from + f.count])
            && w'.Of(p.topic).offsets == Tracked(w.Of(p.topic).offsets, p, from, f.count)
  {
    var p, from := f.partition, w.Pos(f.partition);
    var msgs := Messages(log, p)[from..from + f.count];
    var st := TakeMessages(w.Of(p.topic), p, from, msgs);
    var w1 := w.With(p.topic, st);
    WithEffect(w, p.topic, st);
    MoveEffect(w1, p, from + f.count);
    assert IngestOne(w, log, f) == w1.(position := w1.position[p := from + f.count]);
    assert forall q: Partition :: w1.Pos(q) == w.Pos(q);
  }

  lemma WithEffect(w: World, t: Topic, st: TopicState)
    ensures var w' := w.With(t, st);
            && w'.Of(t) == st && (forall u: Topic :: u != t ==> w'.Of(u) == w.Of(u))
            && w'.position == w.position && w'.committed == w.committed
            && w'.sink == w.sink && w'.status == w.status && w'.paused == w.paused
  {
  }

  lemma MoveEffect(w: World, p: Partition, to: nat)
    ensures var w' := w.(position := w.position[p := to]);
            && (forall t: Topic :: w'.Of(t) == w.Of(t))
            && (forall q: Partition :: w'.Pos(q) == if q == p then to else w.Pos(q))
  {
  }

  // `w'` is `w` with the `n` messages of `p` at its fetch position taken in.
  ghost predicate Advanced(w: World, w': World, log: Log, p: Partition, n: nat) {
    && w.Pos(p) + n <= |Messages(log, p)|
    && (forall q: Partition :: w'.Pos(q) == (if q == p then w.Pos(p) + n else w.Pos(q)) && w'.Com(q) == w.Com(q))
    && w'.sink == w.sink
    && (forall t: Topic, r: Record :: r in w'.Of(t).batch <==>
          r in w.Of(t).batch
          || (t == p.topic && r.partition == p && w.Pos(p) <= r.offset < w.Pos(p) + n && IsRecord(log, r)))
    && (forall t: Topic :: w'.Of(t).offsets
                           == if t == p.topic then Tracked(w.Of(t).offsets, p, w.Pos(p), n) else w.Of(t).offsets)
  }

  lemma IngestOneAdvances(w: World, log: Log, f: Fetch)
    requires CanFetch(w, log, f)
    ensures Advanced(w, IngestOne(w, log, f), log, f.partition, f.count)
  {
    IngestOneEffect(w, log, f);
    FetchedContent(log, f.partition, w.Pos(f.partition), f.count);
    var w' := IngestOne(w, log, f);
    forall q: Partition ensures w'.Com(q) == w.Com(q) { }
  }

  lemma AdvanceKeepsDurable(w: World, w': World, log: Log, p: Partition, n: nat)
    requires Advanced(w, w', log, p, n) && Durable(w, log)
    ensures Durable(w', log)
  {
    forall r: Record | IsRecord(log, r) && r.offset < w'.Pos(r.partition)
      ensures r in w'.sink || r in w'.Of(r.partition.topic).batch
    {
      if r.offset < w.Pos(r.partition) {
        assert r in w.sink || r in w.Of(r.partition.topic).batch;
      }
    }
  }

  lemma AdvanceKeepsPositions(w: World, w': World, log: Log, p: Partition, n: nat)
    requires Advanced(w, w', log, p, n) && PositionsAgree(w, log)
    ensures PositionsAgree(w', log)
  {
    forall q: Partition
      ensures w'.Com(q) <= w'.Pos(q) <= |Messages(log, q)|
      ensures if q in w'.Of(q.topic).offsets then w'.Pos(q) == w'.Of(q.topic).offsets[q] + 1 else w'.Pos(q) == w'.Com(q)
    {
      assert w.Com(q) <= w.Pos(q) <= |Messages(log, q)|;
      assert w'.Of(q.topic).offsets
          == if q.topic == p.topic then Tracked(w.Of(q.topic).offsets, p, w.Pos(p), n) else w.Of(q.topic).offsets;
    }
  }

  lemma AdvanceKeepsSound(w: World, w': World, log: Log, p: Partition, n: nat)
    requires Advanced(w, w', log, p, n) && Sound(w, log)
    ensures Sound(w', log)
  {
    forall t: Topic, q: Partition | q in w'.Of(t).offsets ensures q.topic == t {
      assert w'.Of(t).offsets == if t == p.topic then Tracked(w.Of(t).offsets, p, w.Pos(p), n) else w.Of(t).offsets;
      assert q in w.Of(t).offsets || (t == p.topic && q == p);
    }
    forall t: Topic, r: Record | r in w'.Of(t).batch
      ensures IsRecord(log, r) && r.partition.topic == t && r.offset < w'.Pos(r.partition)
    {
      assert w.Pos(r.partition) <= w'.Pos(r.partition);
    }
  }

  lemma IngestOneKeepsInv(w: World, log: Log, f: Fetch)
    requires Inv(w, log)
    ensures Inv(IngestOne(w, log, f), log)
  {
    if CanFetch(w, log, f) {
      var w' := IngestOne(w, log, f);
      IngestOneAdvances(w, log, f);
      AdvanceKeepsDurable(w, w', log, f.partition, f.count);
      AdvanceKeepsPositions(w, w', log, f.partition, f.count);
      AdvanceKeepsSound(w, w', log, f.partition, f.count);
    }
  }

  lemma {:induction false} IngestKeepsInv(w: World, log: Log, fetches: seq<Fetch>)
    requires Inv(w, log)
    ensures Inv(Ingest(w, log, fetches), log)
  {
    if fetches != [] {
      IngestKeepsInv(w, log, fetches[..|fetches| - 1]);
      IngestOneKeepsInv(Ingest(w, log, fetches[..|fetches| - 1]), log, fetches[|fetches| - 1]);
    }
  }

  // ---------------------------------------------------------------- what a flush leaves in the sink

  lemma {:induction false} ForTenantConcat(a: seq<Record>, b: seq<Record>, t: Tenant)
    ensures ForTenant(a + b, t) == ForTenant(a, t) + ForTenant(b, t)
  {
    if b == [] {
      assert a + b == a;
    } else {
      ForTenantConcat(a, b[..|b| - 1], t);
      Sequences.InitOfConcat(a, b);
    }
  }

  // A tenant's group is the tenant's rows, each as often as in the batch.
  lemma {:induction false} ForTenantCounted(batch: seq<Record>, t: Tenant, r: Record)
    ensures multiset(ForTenant(batch, t))[r] == if r.tenant == t then multiset(batch)[r] else 0
  {
    if batch != [] {
      var init, last := batch[..|batch| - 1], batch[|batch| - 1];
      ForTenantCounted(init, t, r);
      assert batch == init + [last];
    }
  }

  // Grouping a group again gives the same group, or nothing for another tenant.
  lemma {:induction false} ForTenantAgain(batch: seq<Record>, t: Tenant, u: Tenant)
    ensures ForTenant(ForTenant(batch, t), u) == if u == t then ForTenant(batch, t) else []
  {
    if batch != [] {
      var init, r := batch[..|batch| - 1], batch[|batch| - 1];
      ForTenantAgain(init, t, u);
      ForTenantConcat(ForTenant(init, t), [r], u);
      assert ForTenant([r], u) == if r.tenant == u then [r] else [];
    }
  }

  ghost predicate Distinct<T>(s: seq<T>) {
    forall i, j :: 0 <= i < j < |s| ==> s[i] != s[j]
  }

  lemma {:induction false} TenantsContent(batch: seq<Record>)
    ensures Distinct(Tenants(batch))
    ensures forall r <- batch :: r.tenant in Tenants(batch)
  {
    if batch != [] {
      var init, r := batch[..|batch| - 1], batch[|batch| - 1];
      TenantsContent(init);
      assert batch == init + [r];
    }
  }

  lemma {:induction false} TenantRowsWithin(batch: seq<Record>, order: seq<Tenant>, a: Answers)
    ensures forall r <- TenantRows(batch, order, a) :: r in batch
  {
    if order != [] {
      var init, t := order[..|order| - 1], order[|order| - 1];
      TenantRowsWithin(batch, init, a);
      forall r | r in Landed(ForTenant(batch, t), a.tenants(t)) ensures r in batch {
        ForTenantCounted(batch, t, r);
        assert multiset(ForTenant(batch, t))[r] > 0;
      }
    }
  }

  lemma {:induction false} TenantRowsAccepted(batch: seq<Record>, order: seq<Tenant>, a: Answers, u: Tenant)
    requires Distinct(order)
    requires forall t <- order :: Takes(ForTenant(batch, t), a.tenants(t))
    ensures ForTenant(TenantRows(batch, order, a), u) == if u in order then ForTenant(batch, u) else []
  {
    if order != [] {
      var init, t := order[..|order| - 1], order[|order| - 1];
      assert order == init + [t] && t !in init;
      TenantRowsAccepted(batch, init, a, u);
      ForTenantAgain(batch, t, u);
      ForTenantConcat(TenantRows(batch, init, a), ForTenant(batch, t), u);
    }
  }

  lemma {:induction false} TenantRowsCounted(batch: seq<Record>, order: seq<Tenant>, a: Answers, r: Record)
    requires Distinct(order)
    requires forall t <- order :: Takes(ForTenant(batch, t), a.tenants(t))
    ensures multiset(TenantRows(batch, order, a))[r] == if r.tenant in order then multiset(batch)[r] else 0
  {
    if order != [] {
      var init, t := order[..|order| - 1], order[|order| - 1];
      assert order == init + [t] && t !in init;
      TenantRowsCounted(batch, init, a, r);
      ForTenantCounted(batch, t, r);
    }
  }

  lemma LandedContent(rows: seq<Record>, answer: Insert)
    ensures forall r <- Landed(rows, answer) :: r in rows
    ensures Takes(rows, answer) ==> Landed(rows, answer) == rows
  {
  }

  lemma {:induction false} TraceRowsWithin(batch: seq<Record>, a: Answers)
    ensures forall r <- TraceRows(batch, a) :: r in batch
  {
    if batch != [] {
      var n := |batch| - 1;
      TraceRowsWithin(batch[..n], a);
      LandedContent([batch[n]], a.traces(n));
      forall r | r in TraceRows(batch, a) ensures r in batch {
        assert r in TraceRows(batch[..n], a) || r in Landed([batch[n]], a.traces(n));
      }
    }
  }

  lemma {:induction false} TraceRowsAccepted(batch: seq<Record>, a: Answers)
    requires forall i | 0 <= i < |batch| :: TraceTaken(batch, i, a)
    ensures TraceRows(batch, a) == batch
  {
    if batch != [] {
      var n := |batch| - 1;
      var init := batch[..n];
      forall i | 0 <= i < n ensures TraceTaken(init, i, a) {
        assert TraceTaken(batch, i, a) && init[i] == batch[i];
      }
      TraceRowsAccepted(init, a);
      LandedContent([batch[n]], a.traces(n));
      assert TraceTaken(batch, n, a);
      assert batch == init + [batch[n]];
    }
  }

  lemma {:induction false} TenantlessGroupIsEmpty(batch: seq<Record>, u: Tenant)
    requires u !in Tenants(batch)
    ensures ForTenant(batch, u) == []
  {
    if batch != [] {
      TenantlessGroupIsEmpty(batch[..|batch| - 1], u);
    }
  }

  ghost predicate ExactlyTheBatch(rows: seq<Record>, batch: seq<Record>) {
    multiset(rows) == multiset(batch) && forall u: Tenant :: ForTenant(rows, u) == ForTenant(batch, u)
  }

  lemma LogRowsAreTheBatch(batch: seq<Record>, a: Answers)
    requires forall t <- Tenants(batch) :: Takes(ForTenant(batch, t), a.tenants(t))
    ensures ExactlyTheBatch(TenantRows(batch, Tenants(batch), a), batch)
  {
    var rows := TenantRows(batch, Tenants(batch), a);
    TenantsContent(batch);
    forall x: Record ensures multiset(rows)[x] == multiset(batch)[x] {
      TenantRowsCounted(batch, Tenants(batch), a, x);
      assert x.tenant !in Tenants(batch) ==> x !in batch;
    }
    forall u: Tenant ensures ForTenant(rows, u) == ForTenant(batch, u) {
      TenantRowsAccepted(batch, Tenants(batch), a, u);
      if u !in Tenants(batch) {
        TenantlessGroupIsEmpty(batch, u);
      }
    }
  }

  // A flush adds only rows of the batch; one that returns True adds exactly the batch, every
  // tenant's rows in their order of arrival.
  lemma FlushLandsTheBatch(t: Topic, batch: seq<Record>, a: Answers)
    ensures var r := Flush(t, batch, a);
            && (forall x <- r.rows :: x in batch)
            && (r.outcome == Raised && (t == LogsTopic || !a.sessionOpens) ==> r.rows == [])
            && (r.outcome == Written ==> ExactlyTheBatch(r.rows, batch))
  {
    match t
    case LogsTopic =>
      TenantRowsWithin(batch, Tenants(batch), a);
      if FlushLogs(batch, a).outcome == Written {
        LogRowsAreTheBatch(batch, a);
      }
    case TracesTopic =>
      TraceRowsWithin(batch, a);
      if forall i | 0 <= i < |batch| :: TraceTaken(batch, i, a) {
        TraceRowsAccepted(batch, a);
      }
  }

  lemma SinkGrowsKeepsInv(w: World, log: Log, rows: seq<Record>)
    requires Inv(w, log) && forall r <- rows :: IsRecord(log, r)
    ensures Inv(w.(sink := w.sink + rows), log)
  {
    var w' := w.(sink := w.sink + rows);
    assert forall t: Topic :: w'.Of(t) == w.Of(t);
    assert forall p: Partition :: w'.Pos(p) == w.Pos(p) && w'.Com(p) == w.Com(p);
  }

  lemma CommitEffect(w: World, log: Log, t: Topic, c: Commit)
    requires PositionsAgree(w, log) && Sound(w, log)
    ensures var offsets := w.Of(t).offsets; var w' := CommitOffsets(w, offsets, c);
            && (forall u: Topic :: w'.Of(u) == w.Of(u))
            && (forall p: Partition :: w'.Pos(p) == w.Pos(p))
            && (forall p: Partition :: w'.Com(p) == w.Com(p) || (p.topic == t && w'.Com(p) == w.Pos(p)))
            && (c.Acked? ==> forall p: Partition :: p.topic == t ==> w'.Com(p) == w.Pos(p))
            && (c.CommitRaised? ==> forall p: Partition :: p.topic == t ==>
                  w'.Com(p) == if p in c.applied then w.Pos(p) else w.Com(p))
            && w'.status == if c.Acked? then w.status else Unwinding
  {
    var offsets := w.Of(t).offsets;
    var w' := CommitOffsets(w, offsets, c);
    forall p: Partition
      ensures w'.Com(p) == w.Com(p) || (p.topic == t && w'.Com(p) == w.Pos(p))
      ensures c.Acked? && p.topic == t ==> w'.Com(p) == w.Pos(p)
      ensures c.CommitRaised? && p.topic == t ==> w'.Com(p) == if p in c.applied then w.Pos(p) else w.Com(p)
    {
      assert w.Com(p) <= w.Pos(p);
    }
  }

  // Committing the pending offsets of a topic whose whole batch is in the sink is safe, however
  // many of the partitions the broker applied.
  lemma CommitKeepsInv(w: World, log: Log, t: Topic, c: Commit)
    requires Inv(w, log) && forall r <- w.Of(t).batch :: r in w.sink
    ensures Inv(CommitOffsets(w, w.Of(t).offsets, c), log)
    ensures c.Acked? ==> forall p: Partition :: p.topic == t ==>
                           CommitOffsets(w, w.Of(t).offsets, c).Com(p) == CommitOffsets(w, w.Of(t).offsets, c).Pos(p)
  {
    var w' := CommitOffsets(w, w.Of(t).offsets, c);
    CommitEffect(w, log, t, c);
    forall r: Record | IsRecord(log, r) && r.offset < w'.Com(r.partition) ensures r in w'.sink {
      assert r.offset < w.Pos(r.partition);
      assert r in w.sink || r in w.Of(r.partition.topic).batch;
    }
    assert Durable(w', log);
    assert PositionsAgree(w', log);
    assert Sound(w', log);
  }

  lemma ClearKeepsInv(w: World, log: Log, t: Topic, after: real)
    requires Inv(w, log) && forall r <- w.Of(t).batch :: r in w.sink
    requires forall p: Partition :: p.topic == t ==> w.Com(p) == w.Pos(p)
    ensures Inv(w.With(t, TopicState([], map[], after, 0)), log)
  {
    WithEffect(w, t, TopicState([], map[], after, 0));
    ClearKeepsDurable(w, log, t, after);
    ClearKeepsPositions(w, log, t, after);
    ClearKeepsSound(w, log, t, after);
  }

  lemma ClearKeepsDurable(w: World, log: Log, t: Topic, after: real)
    requires Durable(w, log) && forall r <- w.Of(t).batch :: r in w.sink
    ensures Durable(w.With(t, TopicState([], map[], after, 0)), log)
  {
    var w' := w.With(t, TopicState([], map[], after, 0));
    WithEffect(w, t, TopicState([], map[], after, 0));
    assert forall p: Partition :: w'.Pos(p) == w.Pos(p) && w'.Com(p) == w.Com(p);
    forall r: Record | IsRecord(log, r)
      ensures r.offset < w'.Com(r.partition) ==> r in w'.sink
      ensures r.offset < w'.Pos(r.partition) ==> r in w'.sink || r in w'.Of(r.partition.topic).batch
    {
      var u := r.partition.topic;
      assert r.offset < w.Pos(r.partition) ==> r in w.sink || r in w.Of(u).batch;
      assert u != t ==> w'.Of(u) == w.Of(u);
    }
  }

  lemma ClearKeepsPositions(w: World, log: Log, t: Topic, after: real)
    requires PositionsAgree(w, log) && forall p: Partition :: p.topic == t ==> w.Com(p) == w.Pos(p)
    ensures PositionsAgree(w.With(t, TopicState([], map[], after, 0)), log)
  {
    var w' := w.With(t, TopicState([], map[], after, 0));
    WithEffect(w, t, TopicState([], map[], after, 0));
    forall p: Partition
      ensures w'.Com(p) <= w'.Pos(p) <= |Messages(log, p)|
      ensures w'.Pos(p) == if p in w'.Of(p.topic).offsets then w'.Of(p.topic).offsets[p] + 1 else w'.Com(p)
    {
      assert w'.Pos(p) == w.Pos(p) && w'.Com(p) == w.Com(p) && w.Com(p) <= w.Pos(p);
      assert p.topic != t ==> w'.Of(p.topic) == w.Of(p.topic);
    }
  }

  lemma ClearKeepsSound(w: World, log: Log, t: Topic, after: real)
    requires Sound(w, log)
    ensures Sound(w.With(t, TopicState([], map[], after, 0)), log)
  {
    WithEffect(w, t, TopicState([], map[], after, 0));
  }

  ghost predicate SameView(w: World, w': World) {
    && w'.sink == w.sink
    && (forall t: Topic :: w'.Of(t).batch == w.Of(t).batch && w'.Of(t).offsets == w.Of(t).offsets)
    && (forall p: Partition :: w'.Pos(p) == w.Pos(p) && w'.Com(p) == w.Com(p))
  }

  lemma SameViewSameInv(w: World, w': World, log: Log)
    requires Inv(w, log) && SameView(w, w')
    ensures Inv(w', log)
  {
    assert Durable(w', log);
    assert PositionsAgree(w', log);
    assert Sound(w', log);
  }

  lemma WithKeepsInv(w: World, log: Log, t: Topic, st: TopicState, paused: set<Partition>, status: Status)
    requires Inv(w, log) && st.batch == w.Of(t).batch && st.offsets == w.Of(t).offsets
    ensures Inv(w.With(t, st).(paused := paused, status := status), log)
  {
    WithKeepsView(w, t, st, paused, status);
    SameViewSameInv(w, w.With(t, st).(paused := paused, status := status), log);
  }

  lemma WithKeepsView(w: World, t: Topic, st: TopicState, paused: set<Partition>, status: Status)
    requires st.batch == w.Of(t).batch && st.offsets == w.Of(t).offsets
    ensures SameView(w, w.With(t, st).(paused := paused, status := status))
  {
  }

  lemma BatchWrittenToSink(w: World, log: Log, t: Topic, a: Answers)
    requires Inv(w, log)
    ensures var r := Flush(t, w.Of(t).batch, a);
            && Inv(w.(sink := w.sink + r.rows), log)
            && (r.outcome == Written ==> forall x <- w.Of(t).batch :: x in w.sink + r.rows)
  {
    var batch := w.Of(t).batch;
    var r := Flush(t, batch, a);
    FlushLandsTheBatch(t, batch, a);
    SinkGrowsKeepsInv(w, log, r.rows);
    if r.outcome == Written {
      forall x | x in batch ensures x in r.rows {
        assert x in multiset(batch);
      }
    }
  }

  lemma WrittenBatchIsCommitted(w: World, log: Log, t: Topic, after: real, c: Commit)
    requires Inv(w, log) && forall r <- w.Of(t).batch :: r in w.sink
    ensures var offsets := w.Of(t).offsets; var w2 := CommitOffsets(w, offsets, c);
            && Inv(w2, log)
            && (offsets == map[] ==> Inv(w.With(t, TopicState([], map[], after, 0)), log))
            && (c.Acked? ==> Inv(w2.With(t, TopicState([], map[], after, 0)), log))
  {
    var offsets := w.Of(t).offsets;
    CommitKeepsInv(w, log, t, c);
    if offsets == map[] {
      ClearKeepsInv(w, log, t, after);
    }
    if c.Acked? {
      ClearKeepsInv(CommitOffsets(w, offsets, c), log, t, after);
    }
  }

  lemma SettleKeepsInv(w: World, log: Log, t: Topic, outcome: Outcome, after: real, c: Commit)
    requires Inv(w, log) && (outcome == Written ==> forall r <- w.Of(t).batch :: r in w.sink)
    ensures Inv(Settle(w, t, outcome, after, c), log)
  {
    var st, w' := w.Of(t), Settle(w, t, outcome, after, c);
    match outcome
    case Raised =>
      WithKeepsInv(w, log, t, st, w.paused, Unwinding);
    case Rejected =>
      WithKeepsInv(w, log, t, st.(fails := st.fails + 1, last := after), w'.paused, w.status);
    case Written =>
      WrittenBatchIsCommitted(w, log, t, after, c);
  }

  lemma FlushTopicKeepsInv(w: World, log: Log, t: Topic, now: real, after: real, a: Answers, c: Commit)
    requires Inv(w, log)
    ensures Inv(FlushTopic(w, t, now, after, a, c), log)
  {
    if Due(w.Of(t), now) {
      BatchWrittenToSink(w, log, t, a);
      var r := Flush(t, w.Of(t).batch, a);
      var w1 := w.(sink := w.sink + r.rows);
      assert w1.Of(t) == w.Of(t);
      SettleKeepsInv(w1, log, t, r.outcome, after, c);
    }
  }

  lemma DrainTopicKeepsInv(w: World, log: Log, t: Topic, a: Answers, c: Commit)
    requires Inv(w, log)
    ensures Inv(DrainTopic(w, t, a, c).0, log)
  {
    var st := w.Of(t);
    if st.batch != [] {
      BatchWrittenToSink(w, log, t, a);
      var r := Flush(t, st.batch, a);
      var w1 := w.(sink := w.sink + r.rows);
      assert w1.Of(t) == st;
      if r.outcome == Written {
        CommitKeepsInv(w1, log, t, c);
      }
    }
  }

  lemma ShutdownKeepsInv(w: World, log: Log, a0: Answers, c0: Commit, a1: Answers, c1: Commit)
    requires Inv(w, log)
    ensures Inv(Shutdown(w, a0, c0, a1, c1), log)
  {
    DrainTopicKeepsInv(w, log, LogsTopic, a0, c0);
    var (w1, goOn) := DrainTopic(w, LogsTopic, a0, c0);
    DrainTopicKeepsInv(w1, log, TracesTopic, a1, c1);
    var w2 := if goOn then DrainTopic(w1, TracesTopic, a1, c1).0 else w1;
    WithKeepsInv(w2, log, LogsTopic, w2.logs, w2.paused, Stopped);
  }

  lemma ResumeKeepsInv(w: World, log: Log, t: Topic)
    requires Inv(w, log)
    ensures Inv(ResumeTopic(w, t), log)
  {
    WithKeepsInv(w, log, t, w.Of(t), ResumeTopic(w, t).paused, w.status);
  }

  lemma RestartKeepsInv(w: World, log: Log, clock: real)
    requires Inv(w, log)
    ensures Inv(Restart(w, clock), log)
  {
    var w' := Restart(w, clock);
    assert forall t: Topic :: w'.Of(t) == TopicState([], map[], clock, 0);
    assert forall p: Partition :: w'.Pos(p) == w.Com(p) && w'.Com(p) == w.Com(p);
  }

  lemma NextKeepsInv(w: World, log: Log, s: Step)
    requires Inv(w, log)
    ensures Inv(Next(w, log, s), log)
  {
    match s
    case Poll(fetches) =>
      IngestKeepsInv(w, log, fetches);
    case FlushStep(t, now, after, a, c) =>
      FlushTopicKeepsInv(w, log, t, now, after, a, c);
    case Resume =>
      ResumeKeepsInv(w, log, LogsTopic);
      ResumeKeepsInv(ResumeTopic(w, LogsTopic), log, TracesTopic);
    case Stop(a0, c0, a1, c1) =>
      ShutdownKeepsInv(w, log, a0, c0, a1, c1);
    case Revive(clock) =>
      RestartKeepsInv(w, log, clock);
  }

  // DURABILITY: in every state reachable by polls, flushes, failed inserts, failed commits,
  // shutdowns and kills in any order, nothing acknowledged is missing from the sink and nothing
  // fetched is lost.
  lemma {:induction false} EveryRunIsDurable(log: Log, clock: real, steps: seq<Step>)
    ensures Inv(Run(Initial(clock), log, steps), log)
  {
    if steps == [] {
      var w := Initial(clock);
      assert forall t: Topic :: w.Of(t) == TopicState([], map[], clock, 0);
    } else {
      EveryRunIsDurable(log, clock, steps[..|steps| - 1]);
      NextKeepsInv(Run(Initial(clock), log, steps[..|steps| - 1]), log, steps[|steps| - 1]);
    }
  }

  // ---------------------------------------------------------------- backpressure

  // At the head of the loop: an empty batch has no failures and no paused partition, and a
  // paused partition belongs to a failing topic over the ceiling that still holds its offset.
  ghost predicate LoopHead(w: World) {
    && (forall t: Topic :: w.Of(t).batch == [] ==> w.Of(t).fails == 0)
    && (forall p <- w.paused :: PausedForBacklog(w, p))
  }

  ghost predicate PausedForBacklog(w: World, p: Partition) {
    var st := w.Of(p.topic);
    |st.batch| > MAX_BATCH && st.fails > 0 && p in st.offsets
  }

  // Between polling and resuming, a drained topic may still have paused partitions.
  ghost predicate MidTurn(w: World) {
    && (forall t: Topic :: w.Of(t).batch == [] ==> w.Of(t).fails == 0)
    && (forall p <- w.paused :: w.Of(p.topic).batch == [] || PausedForBacklog(w, p))
  }

  lemma {:induction false} IngestKeepsLoopHead(w: World, log: Log, fetches: seq<Fetch>)
    requires LoopHead(w)
    ensures LoopHead(Ingest(w, log, fetches)) && Ingest(w, log, fetches).status == w.status
  {
    if fetches != [] {
      IngestKeepsLoopHead(w, log, fetches[..|fetches| - 1]);
      var w1, f := Ingest(w, log, fetches[..|fetches| - 1]), fetches[|fetches| - 1];
      if CanFetch(w1, log, f) {
        IngestOneEffect(w1, log, f);
        var w2 := IngestOne(w1, log, f);
        assert w2.Of(f.partition.topic).fails == w1.Of(f.partition.topic).fails;
        forall p | p in w2.paused ensures PausedForBacklog(w2, p) {
          assert PausedForBacklog(w1, p);
        }
      }
    }
  }

  ghost predicate OwnOffsets(w: World, t: Topic) {
    forall p <- w.Of(t).offsets :: p.topic == t
  }

  lemma SettleKeepsMidTurn(w: World, t: Topic, outcome: Outcome, after: real, c: Commit)
    requires OwnOffsets(w, t) && MidTurn(w) && w.Of(t).batch != []
    ensures var w' := Settle(w, t, outcome, after, c); w'.status == Running ==> MidTurn(w')
  {
    var st := w.Of(t);
    var w' := Settle(w, t, outcome, after, c);
    assert forall u: Topic :: u != t ==> w'.Of(u) == w.Of(u);
    if w'.status == Running {
      forall p | p in w'.paused ensures w'.Of(p.topic).batch == [] || PausedForBacklog(w', p) {
        assert p in w.paused ==> w.Of(p.topic).batch == [] || PausedForBacklog(w, p);
      }
    }
  }

  lemma FlushKeepsMidTurn(w: World, t: Topic, now: real, after: real, a: Answers, c: Commit)
    requires OwnOffsets(w, t) && MidTurn(w)
    ensures var w' := FlushTopic(w, t, now, after, a, c); w'.status == Running ==> MidTurn(w')
  {
    if Due(w.Of(t), now) {
      var r := Flush(t, w.Of(t).batch, a);
      var w1 := w.(sink := w.sink + r.rows);
      assert forall u: Topic :: w1.Of(u) == w.Of(u);
      assert forall p: Partition :: PausedForBacklog(w, p) ==> PausedForBacklog(w1, p);
      SettleKeepsMidTurn(w1, t, r.outcome, after, c);
    }
  }

  lemma ResumeReachesLoopHead(w: World)
    requires MidTurn(w)
    ensures LoopHead(ResumeTopic(ResumeTopic(w, LogsTopic), TracesTopic))
  {
    var w' := ResumeTopic(ResumeTopic(w, LogsTopic), TracesTopic);
    assert forall t: Topic :: w'.Of(t) == w.Of(t);
    forall p | p in w'.paused ensures PausedForBacklog(w', p) {
      assert p in w.paused;
      assert w.Of(p.topic).batch == [] || PausedForBacklog(w, p);
    }
  }

  lemma TurnUnfolds(w: World, log: Log, c: Cycle)
    ensures var s := c.Steps();
            Turn(w, log, c) == Next(Next(Next(Next(w, log, s[0]), log, s[1]), log, s[2]), log, s[3])
  {
    var s := c.Steps();
    assert s[..3][..2] == s[..2] && s[..2][..1] == s[..1] && s[..1][..0] == [];
    assert Run(w, log, s[..1]) == Next(w, log, s[0]);
    assert Run(w, log, s[..2]) == Next(Next(w, log, s[0]), log, s[1]);
    assert Run(w, log, s[..3]) == Next(Next(Next(w, log, s[0]), log, s[1]), log, s[2]);
  }

  // BACKPRESSURE: a turn of the loop that is not left by an exception ends at a loop head again.
  lemma TurnKeepsLoopHead(w: World, log: Log, c: Cycle)
    requires Inv(w, log) && LoopHead(w)
    ensures Inv(Turn(w, log, c), log)
    ensures Turn(w, log, c).status == Running ==> LoopHead(Turn(w, log, c))
  {
    TurnUnfolds(w, log, c);
    var s := c.Steps();
    var w1 := Next(w, log, s[0]);
    var w2 := Next(w1, log, s[1]);
    var w3 := Next(w2, log, s[2]);
    NextKeepsInv(w, log, s[0]);
    NextKeepsInv(w1, log, s[1]);
    NextKeepsInv(w2, log, s[2]);
    NextKeepsInv(w3, log, s[3]);
    if Next(w3, log, s[3]).status == Running {
      IngestKeepsLoopHead(w, log, c.fetches);
      FlushKeepsMidTurn(w1, LogsTopic, c.now0, c.after0, c.answers0, c.commit0);
      FlushKeepsMidTurn(w2, TracesTopic, c.now1, c.after1, c.answers1, c.commit1);
      ResumeReachesLoopHead(w3);
    }
  }

  ghost predicate OtherTopicsUntouched(w: World, w': World, t: Topic) {
    && w'.position == w.position
    && (forall u: Topic | u != t :: w'.Of(u) == w.Of(u))
    && forall p: Partition | p.topic != t :: w'.Com(p) == w.Com(p) && (p in w'.paused <==> p in w.paused)
  }

  // Flushing one topic leaves the other's batch, offsets, commits and pauses alone.
  lemma TopicsAreIndependent(w: World, t: Topic, now: real, after: real, a: Answers, c: Commit)
    requires OwnOffsets(w, t)
    ensures OtherTopicsUntouched(w, FlushTopic(w, t, now, after, a, c), t)
  {
    if Due(w.Of(t), now) {
      var r := Flush(t, w.Of(t).batch, a);
      SettleTouchesOneTopic(w.(sink := w.sink + r.rows), t, r.outcome, after, c);
    }
  }

  lemma SettleTouchesOneTopic(w: World, t: Topic, outcome: Outcome, after: real, c: Commit)
    requires OwnOffsets(w, t)
    ensures OtherTopicsUntouched(w, Settle(w, t, outcome, after, c), t)
  {
    var w' := Settle(w, t, outcome, after, c);
    assert forall u: Topic | u != t :: w'.Of(u) == w.Of(u);
    forall p: Partition | p.topic != t ensures w'.Com(p) == w.Com(p) && (p in w'.paused <==> p in w.paused) {
      assert p !in w.Of(t).offsets;
    }
  }

  lemma IngestOneKeepsClock(w: World, log: Log, f: Fetch)
    ensures forall t: Topic :: IngestOne(w, log, f).Of(t).last == w.Of(t).last
    ensures IngestOne(w, log, f).paused == w.paused
  {
  }
}
