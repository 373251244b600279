/**
  What the ingestion worker can ever commit: which messages stall their partition, and which
  topics never commit at all.
*/
module IngestionProgress {
  import opened IngestionWorker

  // A message that parses but can never be written: no code stores it, or its tenant cannot be a
  // dictionary key where logs are grouped.
  predicate Stuck(t: Topic, payload: Payload, tenant: Tenant) {
    !payload.storable || (t == LogsTopic && tenant == Unhashable)
  }

  predicate StuckRecord(r: Record) {
    Stuck(r.partition.topic, r.payload, r.tenant)
  }

  predicate Writable(t: Topic, batch: seq<Record>) {
    forall r <- batch :: !Stuck(t, r.payload, r.tenant)
  }

  const GOOD_ANSWERS := Answers(t => Accepted, i => Accepted, true, true)

  lemma GroupTakesIff(batch: seq<Record>, t: Tenant)
    ensures Storable(ForTenant(batch, t)) <==> forall r <- batch :: r.tenant == t ==> r.payload.storable
  {
    forall r: Record ensures r in ForTenant(batch, t) <==> r in batch && r.tenant == t {
      ForTenantCounted(batch, t, r);
      assert r in ForTenant(batch, t) <==> multiset(ForTenant(batch, t))[r] > 0;
      assert r in batch <==> multiset(batch)[r] > 0;
    }
  }

  lemma WrittenIsWritable(t: Topic, batch: seq<Record>, a: Answers)
    requires Flush(t, batch, a).outcome == Written
    ensures Writable(t, batch)
  {
    TenantsContent(batch);
    forall r | r in batch ensures !Stuck(t, r.payload, r.tenant) {
      if t == LogsTopic {
        GroupTakesIff(batch, r.tenant);
        assert Takes(ForTenant(batch, r.tenant), a.tenants(r.tenant));
      } else {
        var i :| 0 <= i < |batch| && batch[i] == r;
        assert TraceTaken(batch, i, a);
        assert r in [batch[i]];
      }
    }
  }

  lemma WritableIsWritten(t: Topic, batch: seq<Record>)
    requires Writable(t, batch)
    ensures Flush(t, batch, GOOD_ANSWERS).outcome == Written
  {
    match t
    case LogsTopic =>
      forall u | u in Tenants(batch) ensures Takes(ForTenant(batch, u), GOOD_ANSWERS.tenants(u)) {
        GroupTakesIff(batch, u);
      }
    case TracesTopic =>
      forall i | 0 <= i < |batch| ensures TraceTaken(batch, i, GOOD_ANSWERS) {
        assert batch[i] in batch;
      }
  }

  // Some answer of the store lets a batch be written exactly when nothing in it is stuck.
  lemma BatchCanLandIff(t: Topic, batch: seq<Record>)
    ensures (exists a: Answers :: Flush(t, batch, a).outcome == Written) <==> Writable(t, batch)
  {
    if Writable(t, batch) {
      WritableIsWritten(t, batch);
    }
    if a: Answers :| Flush(t, batch, a).outcome == Written {
      WrittenIsWritable(t, batch, a);
    }
  }

  // No message of `p` up to offset `o` is stuck.
  predicate ClearThrough(log: Log, p: Partition, o: nat) {
    forall k :: 0 <= k <= o && k < |Messages(log, p)| && Messages(log, p)[k].Decodable? ==>
      !Stuck(p.topic, Messages(log, p)[k].payload, Messages(log, p)[k].tenant)
  }

  // A message that can be the first of its topic to be written: it parses and nothing up to it
  // in its partition is stuck.
  predicate Opens(log: Log, q: Partition, k: nat) {
    k < |Messages(log, q)| && Messages(log, q)[k].Decodable? && ClearThrough(log, q, k)
  }

  ghost predicate Opened(log: Log, t: Topic) {
    exists q: Partition, k: nat :: q.topic == t && Opens(log, q, k)
  }

  ghost predicate NoneStuck(rows: seq<Record>) {
    forall r <- rows :: !StuckRecord(r)
  }

  // What holds in every reachable state: nothing stuck is ever written, and a topic has no
  // commit before it has a message that can be written.
  ghost predicate Unstuck(w: World, log: Log) {
    NoneStuck(w.sink) && forall p: Partition :: w.Com(p) > 0 ==> Opened(log, p.topic)
  }

  lemma {:induction false} TraceRowsStorable(batch: seq<Record>, a: Answers)
    ensures Storable(TraceRows(batch, a))
  {
    if batch != [] {
      TraceRowsStorable(batch[..|batch| - 1], a);
    }
  }

  lemma {:induction false} TenantRowsStorable(batch: seq<Record>, order: seq<Tenant>, a: Answers)
    ensures Storable(TenantRows(batch, order, a))
  {
    if order != [] {
      TenantRowsStorable(batch, order[..|order| - 1], a);
    }
  }

  ghost predicate OwnRecords(batch: seq<Record>, t: Topic) {
    forall r <- batch :: r.partition.topic == t
  }

  lemma FlushLandsNoneStuck(t: Topic, batch: seq<Record>, a: Answers)
    requires OwnRecords(batch, t)
    ensures NoneStuck(Flush(t, batch, a).rows)
  {
    FlushLandsTheBatch(t, batch, a);
    TraceRowsStorable(batch, a);
    TenantRowsStorable(batch, Tenants(batch), a);
    forall r | r in Flush(t, batch, a).rows ensures !StuckRecord(r) {
      assert r in batch;
    }
  }

  // Whatever is fetched but not yet in the sink is in the batch, so a batch that is written leaves
  // nothing stuck behind any of its records.
  lemma WrittenBatchOpens(w: World, log: Log, t: Topic, a: Answers)
    requires Inv(w, log) && NoneStuck(w.sink)
    requires w.Of(t).batch != [] && Flush(t, w.Of(t).batch, a).outcome == Written
    ensures Opened(log, t)
  {
    var r := w.Of(t).batch[0];
    var q := r.partition;
    assert r in w.Of(t).batch;
    WrittenIsWritable(t, w.Of(t).batch, a);
    forall k | 0 <= k <= r.offset && k < |Messages(log, q)| && Messages(log, q)[k].Decodable?
      ensures !Stuck(q.topic, Messages(log, q)[k].payload, Messages(log, q)[k].tenant)
    {
      var x := Record(Messages(log, q)[k].payload, Messages(log, q)[k].tenant, q, k);
      assert IsRecord(log, x) && x.offset < w.Pos(q);
      assert x in w.sink || x in w.Of(t).batch;
      assert x in w.sink ==> !StuckRecord(x);
    }
    assert Opens(log, q, r.offset);
  }

  lemma CommitKeepsUnstuck(w: World, log: Log, t: Topic, c: Commit)
    requires Inv(w, log) && Unstuck(w, log) && Opened(log, t)
    ensures Unstuck(CommitOffsets(w, w.Of(t).offsets, c), log)
  {
    CommitEffect(w, log, t, c);
  }

  lemma SettleKeepsUnstuck(w: World, log: Log, t: Topic, outcome: Outcome, after: real, c: Commit)
    requires Inv(w, log) && Unstuck(w, log) && (outcome == Written ==> Opened(log, t))
    ensures Unstuck(Settle(w, t, outcome, after, c), log)
  {
    var w' := Settle(w, t, outcome, after, c);
    if outcome == Written {
      CommitKeepsUnstuck(w, log, t, c);
      var w1 := CommitOffsets(w, w.Of(t).offsets, c);
      assert w'.sink == w.sink && (w'.committed == w.committed || w'.committed == w1.committed);
      assert forall p: Partition :: w'.Com(p) == w.Com(p) || w'.Com(p) == w1.Com(p);
    } else {
      assert w'.sink == w.sink && w'.committed == w.committed;
      assert forall p: Partition :: w'.Com(p) == w.Com(p);
    }
  }

  // What a flush lands, before anything is committed.
  lemma LandingKeepsUnstuck(w: World, log: Log, t: Topic, a: Answers)
    requires Inv(w, log) && Unstuck(w, log) && w.Of(t).batch != []
    ensures var r := Flush(t, w.Of(t).batch, a);
            && Inv(w.(sink := w.sink + r.rows), log) && Unstuck(w.(sink := w.sink + r.rows), log)
            && (r.outcome == Written ==> Opened(log, t))
  {
    var r := Flush(t, w.Of(t).batch, a);
    BatchWrittenToSink(w, log, t, a);
    assert OwnRecords(w.Of(t).batch, t);
    FlushLandsNoneStuck(t, w.Of(t).batch, a);
    var w1 := w.(sink := w.sink + r.rows);
    assert forall p: Partition :: w1.Com(p) == w.Com(p);
    if r.outcome == Written {
      WrittenBatchOpens(w, log, t, a);
    }
  }

  lemma FlushTopicKeepsUnstuck(w: World, log: Log, t: Topic, now: real, after: real, a: Answers, c: Commit)
    requires Inv(w, log) && Unstuck(w, log)
    ensures Unstuck(FlushTopic(w, t, now, after, a, c), log)
  {
    if Due(w.Of(t), now) {
      var r := Flush(t, w.Of(t).batch, a);
      LandingKeepsUnstuck(w, log, t, a);
      SettleKeepsUnstuck(w.(sink := w.sink + r.rows), log, t, r.outcome, after, c);
    }
  }

  lemma DrainTopicKeepsUnstuck(w: World, log: Log, t: Topic, a: Answers, c: Commit)
    requires Inv(w, log) && Unstuck(w, log)
    ensures Unstuck(DrainTopic(w, t, a, c).0, log)
  {
    if w.Of(t).batch != [] {
      var r := Flush(t, w.Of(t).batch, a);
      LandingKeepsUnstuck(w, log, t, a);
      var w1 := w.(sink := w.sink + r.rows);
      assert w1.Of(t) == w.Of(t);
      if r.outcome == Written {
        CommitKeepsUnstuck(w1, log, t, c);
      }
    }
  }

  lemma {:induction false} IngestKeepsSink(w: World, log: Log, fetches: seq<Fetch>)
    ensures Ingest(w, log, fetches).sink == w.sink && Ingest(w, log, fetches).committed == w.committed
    ensures Ingest(w, log, fetches).paused == w.paused
  {
    if fetches != [] {
      IngestKeepsSink(w, log, fetches[..|fetches| - 1]);
    }
  }

  lemma SameCommitsUnstuck(w: World, w': World, log: Log)
    requires Unstuck(w, log) && w'.sink == w.sink && w'.committed == w.committed
    ensures Unstuck(w', log)
  {
    assert forall p: Partition :: w'.Com(p) == w.Com(p);
  }

  lemma NextKeepsUnstuck(w: World, log: Log, s: Step)
    requires Inv(w, log) && Unstuck(w, log)
    ensures Unstuck(Next(w, log, s), log)
  {
    match s
    case Poll(fetches) =>
      IngestKeepsSink(w, log, fetches);
      SameCommitsUnstuck(w, Ingest(w, log, fetches), log);
    case FlushStep(t, now, after, a, c) =>
      FlushTopicKeepsUnstuck(w, log, t, now, after, a, c);
    case Resume =>
      SameCommitsUnstuck(w, Next(w, log, s), log);
    case Stop(a0, c0, a1, c1) =>
      var (w1, goOn) := DrainTopic(w, LogsTopic, a0, c0);
      DrainTopicKeepsInv(w, log, LogsTopic, a0, c0);
      DrainTopicKeepsUnstuck(w, log, LogsTopic, a0, c0);
      DrainTopicKeepsUnstuck(w1, log, TracesTopic, a1, c1);
      var w2 := if goOn then DrainTopic(w1, TracesTopic, a1, c1).0 else w1;
      SameCommitsUnstuck(w2, w2.(status := Stopped), log);
    case Revive(clock) =>
      SameCommitsUnstuck(w, Restart(w, clock), log);
  }

  lemma {:induction false} RunsAreUnstuck(log: Log, clock: real, steps: seq<Step>)
    ensures Unstuck(Run(Initial(clock), log, steps), log)
  {
    if steps != [] {
      var init := steps[..|steps| - 1];
      EveryRunIsDurable(log, clock, init);
      RunsAreUnstuck(log, clock, init);
      NextKeepsUnstuck(Run(Initial(clock), log, init), log, steps[|steps| - 1]);
    }
  }

  // A stuck message stalls its partition: no run, whatever the store and the broker answer,
  // commits past it.
  lemma StuckMessageStallsItsPartition(log: Log, clock: real, steps: seq<Step>, p: Partition, o: nat)
    requires !ClearThrough(log, p, o)
    ensures Run(Initial(clock), log, steps).Com(p) <= o
  {
    var w := Run(Initial(clock), log, steps);
    EveryRunIsDurable(log, clock, steps);
    RunsAreUnstuck(log, clock, steps);
    var k :| 0 <= k <= o && k < |Messages(log, p)| && Messages(log, p)[k].Decodable?
             && Stuck(p.topic, Messages(log, p)[k].payload, Messages(log, p)[k].tenant);
    var r := Record(Messages(log, p)[k].payload, Messages(log, p)[k].tenant, p, k);
    assert IsRecord(log, r) && StuckRecord(r);
  }

  // A topic nothing of which can be written first never commits, not even its malformed
  // messages: an empty batch is never flushed.
  lemma UnopenedTopicNeverCommits(log: Log, clock: real, steps: seq<Step>, p: Partition)
    requires !Opened(log, p.topic)
    ensures Run(Initial(clock), log, steps).Com(p) == 0
  {
    RunsAreUnstuck(log, clock, steps);
  }

  lemma MalformedTopicNeverCommits(log: Log, clock: real, steps: seq<Step>, p: Partition)
    requires forall q: Partition, k: nat ::
               q.topic == p.topic && k < |Messages(log, q)| ==> Messages(log, q)[k] == Malformed
    ensures Run(Initial(clock), log, steps).Com(p) == 0
  {
    assert forall q: Partition, k: nat :: q.topic == p.topic ==> !Opens(log, q, k);
    UnopenedTopicNeverCommits(log, clock, steps, p);
  }

  // ---------------------------------------------------------------- and what does not

  // Fetch `p` through offset `o` and `q` through offset `k`, and write what that gave.
  function Reach(p: Partition, o: nat, q: Partition, k: nat): seq<Fetch> {
    if q == p then [Fetch(p, Max(o, k) + 1)] else [Fetch(p, o + 1), Fetch(q, k + 1)]
  }

  function PosAfter(p: Partition, o: nat, q: Partition, k: nat, x: Partition): nat {
    if x == p then (if q == p then Max(o, k) + 1 else o + 1) else if x == q then k + 1 else 0
  }

  lemma ReachEffect(log: Log, clock: real, p: Partition, o: nat, q: Partition, k: nat)
    requires o < |Messages(log, p)| && k < |Messages(log, q)|
    ensures var w := Ingest(Initial(clock), log, Reach(p, o, q, k));
            && w.status == Running && w.sink == [] && w.committed == map[]
            && (forall x: Partition :: w.Pos(x) == PosAfter(p, o, q, k, x))
            && (forall t: Topic :: w.Of(t).last == clock)
  {
    var w0, fetches := Initial(clock), Reach(p, o, q, k);
    assert forall t: Topic :: w0.Of(t) == TopicState([], map[], clock, 0);
    var w1 := IngestOne(w0, log, fetches[0]);
    assert fetches[..1][..0] == [] && Ingest(w0, log, fetches[..1]) == w1;
    IngestOneEffect(w0, log, fetches[0]);
    IngestOneKeepsClock(w0, log, fetches[0]);
    if q == p {
      assert fetches[..1] == fetches;
    } else {
      IngestOneEffect(w1, log, fetches[1]);
      IngestOneKeepsClock(w1, log, fetches[1]);
      assert Ingest(w0, log, fetches) == IngestOne(w1, log, fetches[1]);
    }
  }

  // Everything fetched that way can be written.
  lemma ReachedIsWritable(log: Log, clock: real, p: Partition, o: nat, q: Partition, k: nat)
    requires o < |Messages(log, p)| && ClearThrough(log, p, o) && q.topic == p.topic && Opens(log, q, k)
    ensures var w := Ingest(Initial(clock), log, Reach(p, o, q, k));
            Inv(w, log) && w.Of(p.topic).batch != [] && Writable(p.topic, w.Of(p.topic).batch)
  {
    var w, t := Ingest(Initial(clock), log, Reach(p, o, q, k)), p.topic;
    ReachEffect(log, clock, p, o, q, k);
    EveryRunIsDurable(log, clock, []);
    IngestKeepsInv(Initial(clock), log, Reach(p, o, q, k));
    var x := Record(Messages(log, q)[k].payload, Messages(log, q)[k].tenant, q, k);
    assert IsRecord(log, x) && x.offset < w.Pos(q);
    assert x in w.Of(t).batch;
    forall r | r in w.Of(t).batch ensures !Stuck(t, r.payload, r.tenant) {
      assert r.offset < w.Pos(r.partition) == PosAfter(p, o, q, k, r.partition);
      assert r.partition == p || r.partition == q;
    }
  }

  lemma ReachedIsCommitted(log: Log, clock: real, p: Partition, o: nat, q: Partition, k: nat)
    requires o < |Messages(log, p)| && ClearThrough(log, p, o) && q.topic == p.topic && Opens(log, q, k)
    ensures var now := clock + LINGER_SECONDS;
            Run(Initial(clock), log,
                [Poll(Reach(p, o, q, k)), FlushStep(p.topic, now, now, GOOD_ANSWERS, Acked)]).Com(p) > o
  {
    var now, t := clock + LINGER_SECONDS, p.topic;
    var steps := [Poll(Reach(p, o, q, k)), FlushStep(t, now, now, GOOD_ANSWERS, Acked)];
    var w1 := Ingest(Initial(clock), log, Reach(p, o, q, k));
    assert steps[..1][..0] == [] && Run(Initial(clock), log, steps[..1]) == w1;
    assert Run(Initial(clock), log, steps) == FlushTopic(w1, t, now, now, GOOD_ANSWERS, Acked) by {
      ReachEffect(log, clock, p, o, q, k);
    }
    ReachEffect(log, clock, p, o, q, k);
    ReachedIsWritable(log, clock, p, o, q, k);
    WritableIsWritten(t, w1.Of(t).batch);
    FlushCommits(w1, log, t, now, p);
  }

  // A due batch that is written and acknowledged commits every partition of its topic.
  lemma FlushCommits(w: World, log: Log, t: Topic, now: real, p: Partition)
    requires Inv(w, log) && Due(w.Of(t), now) && p.topic == t && w.Pos(p) > w.Com(p)
    requires Flush(t, w.Of(t).batch, GOOD_ANSWERS).outcome == Written
    ensures FlushTopic(w, t, now, now, GOOD_ANSWERS, Acked).Com(p) == w.Pos(p)
  {
    var r := Flush(t, w.Of(t).batch, GOOD_ANSWERS);
    var w1 := w.(sink := w.sink + r.rows);
    BatchWrittenToSink(w, log, t, GOOD_ANSWERS);
    assert w1.Of(t) == w.Of(t) && w1.Pos(p) == w.Pos(p) && w1.Com(p) == w.Com(p);
    assert p in w1.Of(t).offsets;
    CommitEffect(w1, log, t, Acked);
  }

  // PROGRESS: some run commits past a message exactly when no message up to it in its partition
  // is stuck, and some message of its topic can be the first to be written.  That is what a
  // partition can hope for; which runs disappoint it is the next section.
  lemma CommitsPassIff(log: Log, p: Partition, o: nat)
    requires o < |Messages(log, p)|
    ensures (exists clock: real, steps: seq<Step> :: Run(Initial(clock), log, steps).Com(p) > o)
            <==> ClearThrough(log, p, o) && Opened(log, p.topic)
  {
    if ClearThrough(log, p, o) && Opened(log, p.topic) {
      var q: Partition, k: nat :| q.topic == p.topic && Opens(log, q, k);
      ReachedIsCommitted(log, 0.0, p, o, q, k);
    }
    if clock: real, steps: seq<Step> :| Run(Initial(clock), log, steps).Com(p) > o {
      RunsAreUnstuck(log, clock, steps);
      if !ClearThrough(log, p, o) {
        StuckMessageStallsItsPartition(log, clock, steps, p, o);
      }
    }
  }

  // ---------------------------------------------------------------- a stuck batch stalls its topic

  ghost predicate NoRevive(steps: seq<Step>) {
    forall i :: 0 <= i < |steps| ==> !steps[i].Revive?
  }

  ghost predicate SameCommits(w: World, w': World, t: Topic) {
    forall p: Partition :: p.topic == t ==> w'.Com(p) == w.Com(p)
  }

  // `r` is held in the batch of `t` and, being stuck, keeps every flush of it from being written.
  predicate Holds(w: World, t: Topic, r: Record) {
    r in w.Of(t).batch && Stuck(t, r.payload, r.tenant)
  }

  lemma HeldBatchIsNotWritten(t: Topic, batch: seq<Record>, r: Record, a: Answers)
    requires r in batch && Stuck(t, r.payload, r.tenant)
    ensures Flush(t, batch, a).outcome != Written
  {
    if Flush(t, batch, a).outcome == Written {
      WrittenIsWritable(t, batch, a);
      assert false;
    }
  }

  lemma {:induction false} IngestHolds(w: World, log: Log, fetches: seq<Fetch>, t: Topic, r: Record)
    requires Holds(w, t, r)
    ensures Holds(Ingest(w, log, fetches), t, r)
  {
    if fetches != [] {
      var w1, x := Ingest(w, log, fetches[..|fetches| - 1]), fetches[|fetches| - 1];
      IngestHolds(w, log, fetches[..|fetches| - 1], t, r);
      if CanFetch(w1, log, x) {
        IngestOneEffect(w1, log, x);
        assert t != x.partition.topic ==> IngestOne(w1, log, x).Of(t) == w1.Of(t);
      }
    }
  }

  lemma FlushHolds(w: World, u: Topic, now: real, after: real, a: Answers, c: Commit, t: Topic, r: Record)
    requires OwnOffsets(w, u) && Holds(w, t, r)
    ensures Holds(FlushTopic(w, u, now, after, a, c), t, r)
    ensures SameCommits(w, FlushTopic(w, u, now, after, a, c), t)
  {
    if u == t {
      HeldBatchIsNotWritten(t, w.Of(t).batch, r, a);
    } else {
      TopicsAreIndependent(w, u, now, after, a, c);
    }
  }

  lemma DrainHolds(w: World, log: Log, u: Topic, a: Answers, c: Commit, t: Topic, r: Record)
    requires Inv(w, log) && Holds(w, t, r)
    ensures Holds(DrainTopic(w, u, a, c).0, t, r) && SameCommits(w, DrainTopic(w, u, a, c).0, t)
  {
    var w1 := w.(sink := w.sink + Flush(u, w.Of(u).batch, a).rows);
    assert w1.Of(u) == w.Of(u) && w1.Of(t) == w.Of(t);
    if u == t {
      HeldBatchIsNotWritten(t, w.Of(t).batch, r, a);
    } else {
      BatchWrittenToSink(w, log, u, a);
      CommitEffect(w1, log, u, c);
      assert SameCommits(w, w1, t);
    }
  }

  lemma StopHolds(w: World, log: Log, a0: Answers, c0: Commit, a1: Answers, c1: Commit, t: Topic, r: Record)
    requires Inv(w, log) && Holds(w, t, r)
    ensures Holds(Shutdown(w, a0, c0, a1, c1), t, r) && SameCommits(w, Shutdown(w, a0, c0, a1, c1), t)
  {
    var d := DrainTopic(w, LogsTopic, a0, c0);
    DrainHolds(w, log, LogsTopic, a0, c0, t, r);
    if d.1 {
      DrainTopicKeepsInv(w, log, LogsTopic, a0, c0);
      DrainHolds(d.0, log, TracesTopic, a1, c1, t, r);
      StoppedHolds(w, DrainTopic(d.0, TracesTopic, a1, c1).0, t, r);
    } else {
      StoppedHolds(w, d.0, t, r);
    }
  }

  lemma StoppedHolds(w: World, w1: World, t: Topic, r: Record)
    requires Holds(w1, t, r) && SameCommits(w, w1, t)
    ensures Holds(w1.(status := Stopped), t, r) && SameCommits(w, w1.(status := Stopped), t)
  {
    var w' := w1.(status := Stopped);
    assert w'.Of(t) == w1.Of(t) && forall p: Partition :: w'.Com(p) == w1.Com(p);
  }

  lemma NextHolds(w: World, log: Log, s: Step, t: Topic, r: Record)
    requires Inv(w, log) && !s.Revive? && Holds(w, t, r)
    ensures Holds(Next(w, log, s), t, r) && SameCommits(w, Next(w, log, s), t)
  {
    match s
    case Poll(fetches) =>
      IngestHolds(w, log, fetches, t, r);
      IngestKeepsSink(w, log, fetches);
    case FlushStep(u, now, after, a, c) =>
      FlushHolds(w, u, now, after, a, c, t, r);
    case Resume =>
      assert Next(w, log, s).Of(t) == w.Of(t);
    case Stop(a0, c0, a1, c1) =>
      if w.status != Stopped {
        StopHolds(w, log, a0, c0, a1, c1, t, r);
      }
  }

  // Once a stuck record is in a topic's batch it stays there, and no partition of the topic
  // commits again until the process is restarted.
  lemma {:induction false} StuckBatchStallsItsTopic(w: World, log: Log, steps: seq<Step>, t: Topic, r: Record)
    requires Inv(w, log) && NoRevive(steps) && Holds(w, t, r)
    ensures Inv(Run(w, log, steps), log) && Holds(Run(w, log, steps), t, r)
    ensures forall p: Partition :: p.topic == t ==> Run(w, log, steps).Com(p) == w.Com(p)
  {
    if steps != [] {
      var init, s := steps[..|steps| - 1], steps[|steps| - 1];
      StuckBatchStallsItsTopic(w, log, init, t, r);
      NextKeepsInv(Run(w, log, init), log, s);
      NextHolds(Run(w, log, init), log, s, t, r);
    }
  }

  lemma DueFlushCommits(w: World, log: Log, t: Topic, p: Partition) returns (s: Step)
    requires Inv(w, log) && w.status == Running && w.Of(t).batch != [] && Writable(t, w.Of(t).batch)
    requires p.topic == t && w.Pos(p) > w.Com(p)
    ensures !s.Revive? && Run(w, log, [s]).Com(p) == w.Pos(p)
  {
    var now := w.Of(t).last + LINGER_SECONDS;
    s := FlushStep(t, now, now, GOOD_ANSWERS, Acked);
    WritableIsWritten(t, w.Of(t).batch);
    FlushCommits(w, log, t, now, p);
    assert [s][..0] == [];
  }

  // Without a restart, the pending messages of a partition can still be committed exactly when
  // nothing in the batch of its whole topic is stuck.
  lemma PendingCommitsIff(w: World, log: Log, p: Partition)
    requires Inv(w, log) && w.status == Running && w.Of(p.topic).batch != [] && w.Pos(p) > w.Com(p)
    ensures (exists steps: seq<Step> :: NoRevive(steps) && Run(w, log, steps).Com(p) > w.Com(p))
            <==> Writable(p.topic, w.Of(p.topic).batch)
  {
    var t := p.topic;
    if Writable(t, w.Of(t).batch) {
      var s := DueFlushCommits(w, log, t, p);
      assert NoRevive([s]);
    } else {
      var r :| r in w.Of(t).batch && Stuck(t, r.payload, r.tenant);
      forall steps: seq<Step> | NoRevive(steps) ensures Run(w, log, steps).Com(p) == w.Com(p) {
        StuckBatchStallsItsTopic(w, log, steps, t, r);
      }
    }
  }

  predicate StuckAt(log: Log, q: Partition, k: nat) {
    k < |Messages(log, q)| && Messages(log, q)[k].Decodable?
    && Stuck(q.topic, Messages(log, q)[k].payload, Messages(log, q)[k].tenant)
  }

  // No message of `t` fetched so far is stuck.
  ghost predicate ClearFetched(w: World, log: Log, t: Topic) {
    forall q: Partition, k: nat :: q.topic == t && k < w.Pos(q) ==> !StuckAt(log, q, k)
  }

  // What is stuck is never in the sink, so once fetched it is in the batch.
  lemma FetchedStuckIsHeld(w: World, log: Log, q: Partition, k: nat)
    requires Inv(w, log) && Unstuck(w, log) && k < w.Pos(q) && StuckAt(log, q, k)
    ensures Holds(w, q.topic, Record(Messages(log, q)[k].payload, Messages(log, q)[k].tenant, q, k))
  {
    var r := Record(Messages(log, q)[k].payload, Messages(log, q)[k].tenant, q, k);
    assert IsRecord(log, r) && StuckRecord(r);
    assert r in w.sink || r in w.Of(q.topic).batch;
  }

  // In the states runs reach, the batch of a topic can be written exactly when nothing stuck has
  // been fetched from any of its partitions.
  lemma ReachedBatchIsWritableIff(w: World, log: Log, t: Topic)
    requires Inv(w, log) && Unstuck(w, log)
    ensures Writable(t, w.Of(t).batch) <==> ClearFetched(w, log, t)
  {
    forall q: Partition, k: nat | q.topic == t && k < w.Pos(q) && StuckAt(log, q, k)
      ensures !Writable(t, w.Of(t).batch)
    {
      FetchedStuckIsHeld(w, log, q, k);
    }
    forall r | r in w.Of(t).batch && Stuck(t, r.payload, r.tenant) ensures !ClearFetched(w, log, t) {
      assert IsRecord(log, r) && r.offset < w.Pos(r.partition);
      assert StuckAt(log, r.partition, r.offset);
    }
  }

  // THE WHOLE TOPIC STALLS: after any run that has fetched a stuck message, nothing short of a
  // restart commits anything more of any partition of that message's topic.
  lemma FetchedStuckMessageStallsItsTopic(
      log: Log, clock: real, steps: seq<Step>, q: Partition, k: nat, more: seq<Step>, p: Partition)
    requires k < Run(Initial(clock), log, steps).Pos(q) && StuckAt(log, q, k)
    requires NoRevive(more) && p.topic == q.topic
    ensures var w := Run(Initial(clock), log, steps); Run(w, log, more).Com(p) == w.Com(p)
  {
    var w := Run(Initial(clock), log, steps);
    var r := Record(Messages(log, q)[k].payload, Messages(log, q)[k].tenant, q, k);
    EveryRunIsDurable(log, clock, steps);
    RunsAreUnstuck(log, clock, steps);
    FetchedStuckIsHeld(w, log, q, k);
    StuckBatchStallsItsTopic(w, log, more, q.topic, r);
  }

  // And only that: whatever has been fetched of a partition can still be committed without a
  // restart exactly when nothing fetched from any partition of its topic is stuck.
  lemma FetchedCommitsIff(log: Log, clock: real, steps: seq<Step>, p: Partition)
    requires var w := Run(Initial(clock), log, steps);
             w.status == Running && w.Of(p.topic).batch != [] && w.Pos(p) > w.Com(p)
    ensures var w := Run(Initial(clock), log, steps);
            (exists more: seq<Step> :: NoRevive(more) && Run(w, log, more).Com(p) > w.Com(p))
            <==> ClearFetched(w, log, p.topic)
  {
    var w := Run(Initial(clock), log, steps);
    EveryRunIsDurable(log, clock, steps);
    RunsAreUnstuck(log, clock, steps);
    PendingCommitsIff(w, log, p);
    ReachedBatchIsWritableIff(w, log, p.topic);
  }

  // The input: `p` holds one good message that some run commits, `q` of the same topic one that
  // is stuck.  Fetched first, that one keeps `p` at 0 for the life of the process.
  lemma OtherPartitionIsStalled(log: Log, clock: real, p: Partition, q: Partition, more: seq<Step>)
    requires p.topic == q.topic && |Messages(log, p)| == 1 && |Messages(log, q)| == 1
    requires Messages(log, p)[0].Decodable? && !StuckAt(log, p, 0) && StuckAt(log, q, 0) && NoRevive(more)
    ensures ClearThrough(log, p, 0) && Opened(log, p.topic)
    ensures var w := Run(Initial(clock), log, [Poll([Fetch(q, 1), Fetch(p, 1)])]);
            w.Pos(p) == 1 && Run(w, log, more).Com(p) == 0
  {
    assert Opens(log, p, 0);
    var fetches := [Fetch(q, 1), Fetch(p, 1)];
    var steps := [Poll(fetches)];
    assert steps[..0] == [] && Run(Initial(clock), log, steps) == Ingest(Initial(clock), log, fetches);
    assert fetches == Reach(q, 0, p, 0);
    ReachEffect(log, clock, q, 0, p, 0);
    FetchedStuckMessageStallsItsTopic(log, clock, steps, q, 0, more, p);
  }
}
