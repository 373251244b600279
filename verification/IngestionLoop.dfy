/**
  The ingestion worker's loop as it runs: dictionaries reassigned key by key, messages taken one
  at a time, rows grouped by tenant in place.  Every method is proved equal to the step of
  `IngestionWorker` it stands for, so what is proved there about all runs holds of this code.
*/
module IngestionLoop {
  import opened IngestionCeiling
  import opened IngestionWorker
  import Sequences

  // Turns of the loop, one after another; an exception makes the rest idle.
  function Turns(w: World, log: Log, cycles: seq<Cycle>): World {
    if cycles == [] then w
    else Turn(Turns(w, log, cycles[..|cycles| - 1]), log, cycles[|cycles| - 1])
  }

  lemma {:induction false} TurnsIdleAfterException(w: World, log: Log, cycles: seq<Cycle>, n: nat)
    requires n <= |cycles| && Turns(w, log, cycles[..n]).status != Running
    ensures Turns(w, log, cycles) == Turns(w, log, cycles[..n])
  {
    if n == |cycles| {
      assert cycles[..n] == cycles;
    } else {
      assert cycles[..|cycles| - 1][..n] == cycles[..n];
      TurnsIdleAfterException(w, log, cycles[..|cycles| - 1], n);
      TurnUnfolds(Turns(w, log, cycles[..|cycles| - 1]), log, cycles[|cycles| - 1]);
    }
  }

  // However many turns a worker has made since it started in a safe state, it is durable, and
  // unless an exception ended the loop it stands at a proper loop head.
  lemma {:induction false} TurnsKeepLoopHead(w: World, log: Log, cycles: seq<Cycle>)
    requires Inv(w, log) && LoopHead(w)
    ensures Inv(Turns(w, log, cycles), log)
    ensures Turns(w, log, cycles).status == Running ==> LoopHead(Turns(w, log, cycles))
  {
    if cycles != [] {
      var init := cycles[..|cycles| - 1];
      TurnsKeepLoopHead(w, log, init);
      var w1 := Turns(w, log, init);
      if w1.status == Running {
        TurnKeepsLoopHead(w1, log, cycles[|cycles| - 1]);
      } else {
        TurnUnfolds(w1, log, cycles[|cycles| - 1]);
      }
    }
  }

  // However many turns a worker has made since it started within the ceiling, it is within it,
  // provided a poll returns at most `f` messages of a partition.
  lemma {:induction false} TurnsKeepBatchesBounded(w: World, log: Log, cycles: seq<Cycle>, f: nat, t: Topic)
    requires Inv(w, log) && LoopHead(w) && (forall u: Topic :: Ceiling(w, u, f))
    requires forall c <- cycles :: BoundedPoll(c.fetches, f)
    ensures var w' := Turns(w, log, cycles);
            w'.status == Running ==>
              (forall u: Topic :: Ceiling(w', u, f)) && |w'.Of(t).batch| <= MAX_BATCH + f * |PartitionsOf(log, t)|
  {
    var w' := Turns(w, log, cycles);
    TurnsKeepLoopHead(w, log, cycles);
    if cycles != [] && w'.status == Running {
      var init, c := cycles[..|cycles| - 1], cycles[|cycles| - 1];
      var w1 := Turns(w, log, init);
      TurnsKeepBatchesBounded(w, log, init, f, t);
      TurnsKeepLoopHead(w, log, init);
      TurnUnfolds(w1, log, c);
      assert w1.status == Running by { StoppedTurnStaysStopped(w1, log, c); }
      TurnKeepsCeiling(w1, log, c, f);
    }
    if w'.status == Running {
      BatchIsBounded(w', log, t, f);
    }
  }

  lemma StoppedTurnStaysStopped(w: World, log: Log, c: Cycle)
    ensures w.status != Running ==> Turn(w, log, c) == w
  {
    TurnUnfolds(w, log, c);
  }

  method GroupByTenant(batch: seq<Record>)
    returns (hashable: bool, order: seq<Tenant>, groups: map<Tenant, seq<Record>>)
    ensures hashable == Groupable(batch)
    ensures hashable ==> order == Tenants(batch)
    ensures hashable ==> forall t :: t in groups <==> t in order
    ensures hashable ==> forall t <- order :: groups[t] == ForTenant(batch, t)
  {
    hashable, order, groups := true, [], map[];
    for i := 0 to |batch|
      invariant hashable && Groupable(batch[..i])
      invariant order == Tenants(batch[..i])
      invariant forall t :: t in groups <==> t in order
      invariant forall t <- order :: groups[t] == ForTenant(batch[..i], t)
      invariant forall t :: t !in order ==> ForTenant(batch[..i], t) == []
    {
      var t := batch[i].tenant;
      assert batch[..i + 1][..i] == batch[..i];
      if t == Unhashable {
        hashable := false;  // TypeError: unhashable key
        return;
      }
      if t !in groups {
        order := order + [t];
        groups := groups[t := []];
      }
      groups := groups[t := groups[t] + [batch[i]]];
    }
    assert batch[..|batch|] == batch;
  }

  // The messages of one partition, in the order the poll returned them: each is decoded or
  // skipped, and its offset tracked either way.
  method TakeEach(st0: TopicState, p: Partition, from: nat, msgs: seq<Message>) returns (st: TopicState)
    ensures st == TakeMessages(st0, p, from, msgs)
  {
    st := st0;
    for j := 0 to |msgs|
      invariant st.batch == st0.batch + Decoded(p, from, msgs[..j])
      invariant st.offsets == Tracked(st0.offsets, p, from, j)
      invariant st.last == st0.last && st.fails == st0.fails
    {
      assert msgs[..j + 1][..j] == msgs[..j];
      match msgs[j] {
        case Malformed =>  // logged and skipped, but still acknowledged
        case Decodable(payload, tenant) =>
          st := st.(batch := st.batch + [Record(payload, tenant, p, from + j)]);
      }
      var seen := if p in st.offsets then st.offsets[p] else -1;
      st := st.(offsets := st.offsets[p := Max(seen, from + j)]);
    }
    assert msgs[..|msgs|] == msgs;
  }

  // Every tenant's insert was accepted.
  predicate AllTaken(batch: seq<Record>, order: seq<Tenant>, a: Answers) {
    order == []
    || (AllTaken(batch, order[..|order| - 1], a)
        && Takes(ForTenant(batch, order[|order| - 1]), a.tenants(order[|order| - 1])))
  }

  lemma {:induction false} AllTakenIff(batch: seq<Record>, order: seq<Tenant>, a: Answers)
    ensures AllTaken(batch, order, a) <==> forall t <- order :: Takes(ForTenant(batch, t), a.tenants(t))
  {
    if order != [] {
      AllTakenIff(batch, order[..|order| - 1], a);
      assert order == order[..|order| - 1] + [order[|order| - 1]];
    }
  }

  lemma TenantRowsUnfold(batch: seq<Record>, order: seq<Tenant>, i: nat, a: Answers)
    requires i < |order|
    ensures AllTaken(batch, order[..i + 1], a)
            <==> AllTaken(batch, order[..i], a) && Takes(ForTenant(batch, order[i]), a.tenants(order[i]))
    ensures TenantRows(batch, order[..i + 1], a)
            == TenantRows(batch, order[..i], a) + Landed(ForTenant(batch, order[i]), a.tenants(order[i]))
  {
    assert order[..i + 1][..i] == order[..i];
  }

  lemma TraceRowsUnfold(batch: seq<Record>, i: nat, a: Answers)
    requires i < |batch|
    ensures TraceRows(batch[..i + 1], a) == TraceRows(batch[..i], a) + Landed([batch[i]], a.traces(i))
  {
    assert batch[..i + 1][..i] == batch[..i];
  }

  class Worker {
    var state: map<Topic, TopicState>
    var position: map<Partition, nat>
    var committed: map<Partition, nat>
    var paused: set<Partition>
    var sink: seq<Record>
    var status: Status

    ghost predicate Valid()
      reads this
    {
      forall t: Topic :: t in state
    }

    ghost function Contents(): World
      reads this
      requires Valid()
    {
      World(state[LogsTopic], state[TracesTopic], position, committed, paused, sink, status)
    }

    constructor (clock: real)
      ensures Valid() && Contents() == Initial(clock)
    {
      var empty := TopicState([], map[], clock, 0);
      state := map[LogsTopic := empty, TracesTopic := empty];
      position, committed, paused, sink, status := map[], map[], {}, [], Running;
      new;
      forall t: Topic ensures t in state {
        match t case LogsTopic => case TracesTopic =>
      }
    }

    // `state[topic] = st`
    method SetTopic(t: Topic, st: TopicState)
      requires Valid()
      modifies this`state
      ensures Valid() && Contents() == old(Contents()).With(t, st)
    {
      state := state[t := st];
    }

    method TakeFetch(log: Log, f: Fetch)
      requires Valid()
      modifies this`state, this`position
      ensures Valid() && Contents() == IngestOne(old(Contents()), log, f)
    {
      ghost var w := Contents();
      var p := f.partition;
      var from := if p in position then position[p] else 0;
      assert from == w.Pos(p) && state[p.topic] == w.Of(p.topic);
      if p in paused || from + f.count > |Messages(log, p)| {
        return;  // the broker returns no such fetch
      }
      var st := TakeEach(state[p.topic], p, from, Messages(log, p)[from..from + f.count]);
      SetTopic(p.topic, st);
      position := position[p := from + f.count];
      assert Contents() == w.With(p.topic, st).(position := w.position[p := from + f.count]);
    }

    method PollOnce(log: Log, fetches: seq<Fetch>)
      requires Valid()
      modifies this`state, this`position
      ensures Valid() && Contents() == Ingest(old(Contents()), log, fetches)
    {
      for i := 0 to |fetches|
        invariant Valid() && Contents() == Ingest(old(Contents()), log, fetches[..i])
      {
        assert fetches[..i + 1][..i] == fetches[..i];
        TakeFetch(log, fetches[i]);
      }
      assert fetches[..|fetches|] == fetches;
    }

    // `insert_logs` or one trace: returns whether the store accepted the rows.
    method InsertRows(rows: seq<Record>, answer: Insert) returns (accepted: bool)
      modifies this`sink
      ensures sink == old(sink) + Landed(rows, answer) && accepted == Takes(rows, answer)
    {
      for i := 0 to |rows|
        invariant Storable(rows[..i])
      {
        assert rows[..i + 1] == rows[..i] + [rows[i]];
        if !rows[i].payload.storable {
          return false;  // converting the row raises
        }
      }
      assert rows[..|rows|] == rows;
      sink := sink + Landed(rows, answer);
      accepted := answer.Accepted?;
    }

    method InsertGroups(batch: seq<Record>, order: seq<Tenant>, groups: map<Tenant, seq<Record>>, a: Answers)
      returns (ok: bool)
      requires forall t <- order :: t in groups && groups[t] == ForTenant(batch, t)
      modifies this`sink
      ensures sink == old(sink) + TenantRows(batch, order, a)
      ensures ok == AllTaken(batch, order, a)
    {
      ok := true;
      for i := 0 to |order|
        invariant sink == old(sink) + TenantRows(batch, order[..i], a)
        invariant ok == AllTaken(batch, order[..i], a)
      {
        var t := order[i];
        TenantRowsUnfold(batch, order, i, a);
        Sequences.AppendTwice(old(sink), TenantRows(batch, order[..i], a), Landed(ForTenant(batch, t), a.tenants(t)));
        var accepted := InsertRows(groups[t], a.tenants(t));
        if !accepted {
          ok := false;
        }
      }
      assert order[..|order|] == order;
    }

    method FlushLogBatch(batch: seq<Record>, a: Answers) returns (outcome: Outcome)
      modifies this`sink
      ensures var r := FlushLogs(batch, a); outcome == r.outcome && sink == old(sink) + r.rows
    {
      var hashable, order, groups := GroupByTenant(batch);
      if !hashable {
        return Raised;
      }
      var ok := InsertGroups(batch, order, groups, a);
      AllTakenIff(batch, order, a);
      outcome := if ok then Written else Rejected;
    }

    // Each trace is stored on its own; a failure is counted and the others go on.
    method InsertTraces(batch: seq<Record>, a: Answers) returns (failed: nat)
      modifies this`sink
      ensures sink == old(sink) + TraceRows(batch, a)
      ensures failed == 0 <==> forall k | 0 <= k < |batch| :: TraceTaken(batch, k, a)
    {
      failed := 0;
      for i := 0 to |batch|
        invariant sink == old(sink) + TraceRows(batch[..i], a)
        invariant failed == 0 <==> forall k | 0 <= k < i :: TraceTaken(batch, k, a)
      {
        TraceRowsUnfold(batch, i, a);
        Sequences.AppendTwice(old(sink), TraceRows(batch[..i], a), Landed([batch[i]], a.traces(i)));
        var accepted := InsertRows([batch[i]], a.traces(i));
        assert accepted == TraceTaken(batch, i, a);
        if !accepted {
          failed := failed + 1;
        }
      }
      assert batch[..|batch|] == batch;
    }

    method FlushTraceBatch(batch: seq<Record>, a: Answers) returns (outcome: Outcome)
      modifies this`sink
      ensures var r := FlushTraces(batch, a); outcome == r.outcome && sink == old(sink) + r.rows
    {
      if !a.sessionOpens {
        return Raised;
      }
      var failed := InsertTraces(batch, a);
      if !a.sessionCloses {
        return Raised;
      }
      outcome := if failed == 0 then Written else Rejected;
    }

    method FlushBatch(t: Topic, batch: seq<Record>, a: Answers) returns (outcome: Outcome)
      modifies this`sink
      ensures var r := Flush(t, batch, a); outcome == r.outcome && sink == old(sink) + r.rows
    {
      match t {
        case LogsTopic => outcome := FlushLogBatch(batch, a);
        case TracesTopic => outcome := FlushTraceBatch(batch, a);
      }
    }

    // `consumer.commit`; returns false when it raised.
    method CommitPending(offsets: map<Partition, nat>, c: Commit) returns (ok: bool)
      requires Valid()
      modifies this`committed, this`status
      ensures Valid() && Contents() == CommitOffsets(old(Contents()), offsets, c) && ok == c.Acked?
    {
      committed := committed + map p | p in offsets && (c.CommitRaised? ==> p in c.applied) :: offsets[p] + 1;
      ok := c.Acked?;
      if !ok {
        status := Unwinding;
      }
    }

    // After the flush: commit and clear, or keep the batch and perhaps pause its partitions.
    method SettleFlush(t: Topic, outcome: Outcome, after: real, c: Commit)
      requires Valid()
      modifies this
      ensures Valid() && Contents() == Settle(old(Contents()), t, outcome, after, c)
    {
      var st := state[t];
      match outcome {
        case Raised =>
          status := Unwinding;
          return;
        case Written =>
          if st.offsets != map[] {
            var ok := CommitPending(st.offsets, c);
            if !ok {
              return;
            }
          }
          st := TopicState([], map[], st.last, 0);
        case Rejected =>
          st := st.(fails := st.fails + 1);
          if |st.batch| > MAX_BATCH {
            paused := paused + st.offsets.Keys;
          }
      }
      SetTopic(t, st.(last := after));
    }

    method FlushDue(t: Topic, now: real, after: real, a: Answers, c: Commit)
      requires Valid()
      modifies this
      ensures Valid() && Contents() == FlushTopic(old(Contents()), t, now, after, a, c)
    {
      var st := state[t];
      if st.batch == [] {
        return;
      }
      var due := |st.batch| >= BATCH_SIZE || now - st.last >= LINGER_SECONDS;
      if !due {
        return;
      }
      var outcome := FlushBatch(t, st.batch, a);
      SettleFlush(t, outcome, after, c);
    }

    method ResumeDrained(t: Topic)
      requires Valid()
      modifies this`paused
      ensures Valid() && Contents() == ResumeTopic(old(Contents()), t)
    {
      if state[t].fails == 0 && state[t].batch == [] {
        paused := set p | p in paused && p.topic != t;
      }
    }

    // One turn of the loop; an exception leaves it early.
    method RunTurn(log: Log, c: Cycle)
      requires Valid() && status == Running
      modifies this
      ensures Valid() && Contents() == Turn(old(Contents()), log, c)
    {
      TurnUnfolds(Contents(), log, c);
      PollOnce(log, c.fetches);
      IngestKeepsStatus(old(Contents()), log, c.fetches);
      FlushDue(LogsTopic, c.now0, c.after0, c.answers0, c.commit0);
      if status != Running {
        return;
      }
      FlushDue(TracesTopic, c.now1, c.after1, c.answers1, c.commit1);
      if status != Running {
        return;
      }
      ResumeDrained(LogsTopic);
      ResumeDrained(TracesTopic);
    }

    method DrainOnExit(t: Topic, a: Answers, c: Commit) returns (goOn: bool)
      requires Valid()
      modifies this
      ensures Valid() && (Contents(), goOn) == DrainTopic(old(Contents()), t, a, c)
    {
      var st := state[t];
      goOn := true;
      if st.batch != [] {
        var outcome := FlushBatch(t, st.batch, a);
        if outcome == Raised {
          goOn := false;
        } else if outcome == Written && st.offsets != map[] {
          goOn := CommitPending(st.offsets, c);
        }
      }
    }

    method ShutDown(a0: Answers, c0: Commit, a1: Answers, c1: Commit)
      requires Valid()
      modifies this
      ensures Valid() && Contents() == Shutdown(old(Contents()), a0, c0, a1, c1)
    {
      var goOn := DrainOnExit(LogsTopic, a0, c0);
      if goOn {
        var _ := DrainOnExit(TracesTopic, a1, c1);
      }
      status := Stopped;
    }

    // `run_ingestion_worker`: turns until an exception or until the schedule of the outside
    // world is used up (a cancellation), then the `finally` block.
    method RunWorker(log: Log, cycles: seq<Cycle>, a0: Answers, c0: Commit, a1: Answers, c1: Commit)
      requires Valid() && status == Running
      modifies this
      ensures Valid() && Contents() == Shutdown(Turns(old(Contents()), log, cycles), a0, c0, a1, c1)
    {
      var i := 0;
      while i < |cycles| && status == Running
        invariant Valid() && 0 <= i <= |cycles|
        invariant Contents() == Turns(old(Contents()), log, cycles[..i])
      {
        assert cycles[..i + 1][..i] == cycles[..i];
        RunTurn(log, cycles[i]);
        i := i + 1;
      }
      if status != Running {
        TurnsIdleAfterException(old(Contents()), log, cycles, i);
      } else {
        assert cycles[..i] == cycles;
      }
      ShutDown(a0, c0, a1, c1);
    }
  }

  // What `RunWorker` leaves behind is durable: a new process may start from its commits.
  lemma WorkerLifeIsDurable(log: Log, w: World, cycles: seq<Cycle>, a0: Answers, c0: Commit, a1: Answers, c1: Commit,
                            clock: real)
    requires Inv(w, log) && LoopHead(w)
    ensures var w' := Shutdown(Turns(w, log, cycles), a0, c0, a1, c1);
            Inv(w', log) && Inv(Restart(w', clock), log) && LoopHead(Restart(w', clock))
  {
    TurnsKeepLoopHead(w, log, cycles);
    ShutdownKeepsInv(Turns(w, log, cycles), log, a0, c0, a1, c1);
    RestartReachesLoopHead(Shutdown(Turns(w, log, cycles), a0, c0, a1, c1), log, clock);
  }

  lemma RestartReachesLoopHead(w: World, log: Log, clock: real)
    requires Inv(w, log)
    ensures Inv(Restart(w, clock), log) && LoopHead(Restart(w, clock))
  {
    RestartKeepsInv(w, log, clock);
    assert forall t: Topic :: Restart(w, clock).Of(t) == TopicState([], map[], clock, 0);
  }

  lemma {:induction false} IngestKeepsStatus(w: World, log: Log, fetches: seq<Fetch>)
    ensures Ingest(w, log, fetches).status == w.status
  {
    if fetches != [] {
      IngestKeepsStatus(w, log, fetches[..|fetches| - 1]);
    }
  }
}
