/**
  Exactly once, when nothing fails: runs of the ingestion worker without a refused insert, a lost
  commit or a kill.
*/
module IngestionDelivery {
  import opened IngestionWorker

  predicate CleanDrain(w: World, t: Topic, a: Answers, c: Commit) {
    w.Of(t).batch == [] || (Flush(t, w.Of(t).batch, a).outcome == Written && c.Acked?)
  }

  // No insert refused, no commit lost, and no restart but after a clean shutdown.
  predicate CleanStep(w: World, s: Step) {
    match s
    case Poll(_) => true
    case FlushStep(t, now, _, a, c) => Due(w.Of(t), now) ==> CleanDrain(w, t, a, c)
    case Resume => true
    case Stop(a0, c0, a1, c1) =>
      CleanDrain(w, LogsTopic, a0, c0) && CleanDrain(DrainTopic(w, LogsTopic, a0, c0).0, TracesTopic, a1, c1)
    case Revive(_) => w.status == Stopped
  }

  predicate CleanRun(w: World, log: Log, steps: seq<Step>) {
    steps == []
    || (CleanRun(w, log, steps[..|steps| - 1])
        && CleanStep(Run(w, log, steps[..|steps| - 1]), steps[|steps| - 1]))
  }

  // The sink holds each committed message once; a live batch holds each fetched, uncommitted
  // message once; a stopped worker has committed every message it fetched.
  ghost predicate OnceEach(w: World, log: Log) {
    && w.status != Unwinding
    && (forall r: Record :: SinkOnce(w, log, r))
    && (w.status == Running ==> forall t: Topic, r: Record :: BatchOnce(w, log, t, r))
    && (w.status == Stopped ==> forall r: Record :: CaughtUp(w, log, r))
  }

  ghost predicate SinkOnce(w: World, log: Log, r: Record) {
    multiset(w.sink)[r] == if IsRecord(log, r) && r.offset < w.Com(r.partition) then 1 else 0
  }

  ghost predicate BatchOnce(w: World, log: Log, t: Topic, r: Record) {
    multiset(w.Of(t).batch)[r]
    == if IsRecord(log, r) && r.partition.topic == t && w.Com(r.partition) <= r.offset < w.Pos(r.partition)
       then 1 else 0
  }

  ghost predicate CaughtUp(w: World, log: Log, r: Record) {
    IsRecord(log, r) && r.offset < w.Pos(r.partition) ==> r.offset < w.Com(r.partition)
  }

  // `w'` and `w` agree on everything `OnceEach` speaks of but the status.
  ghost predicate SameCounts(w: World, w': World) {
    && w'.sink == w.sink
    && (forall t: Topic :: w'.Of(t).batch == w.Of(t).batch)
    && (forall p: Partition :: w'.Pos(p) == w.Pos(p) && w'.Com(p) == w.Com(p))
  }

  lemma SameCountsSameOnce(w: World, w': World, log: Log)
    requires SameCounts(w, w') && w'.status == w.status && OnceEach(w, log)
    ensures OnceEach(w', log)
  {
    forall r: Record ensures SinkOnce(w', log, r) { assert SinkOnce(w, log, r); }
    if w.status == Running {
      forall t: Topic, r: Record ensures BatchOnce(w', log, t, r) { assert BatchOnce(w, log, t, r); }
    } else {
      forall r: Record ensures CaughtUp(w', log, r) { assert CaughtUp(w, log, r); }
    }
  }

  // How often `r` is among what one fetch adds.
  ghost function FetchedCount(w: World, log: Log, f: Fetch, r: Record): nat {
    if r.partition == f.partition && w.Pos(r.partition) <= r.offset < w.Pos(r.partition) + f.count && IsRecord(log, r)
    then 1 else 0
  }

  // What one fetch adds to its own topic's batch.
  function Fetched(w: World, log: Log, f: Fetch): seq<Record>
    requires CanFetch(w, log, f)
  {
    var p, from := f.partition, w.Pos(f.partition);
    Decoded(p, from, Messages(log, p)[from..from + f.count])
  }

  lemma IngestOneBatch(w: World, log: Log, f: Fetch, t: Topic)
    requires CanFetch(w, log, f)
    ensures IngestOne(w, log, f).Of(t).batch
         == if t == f.partition.topic then w.Of(t).batch + Fetched(w, log, f) else w.Of(t).batch
  {
  }

  lemma FetchedCounts(w: World, log: Log, f: Fetch, r: Record)
    requires CanFetch(w, log, f)
    ensures multiset(Fetched(w, log, f))[r] == FetchedCount(w, log, f, r)
  {
    FetchedOnce(log, f.partition, w.Pos(f.partition), f.count, r);
  }

  lemma IngestOneCounts(w: World, log: Log, f: Fetch, t: Topic, r: Record)
    requires CanFetch(w, log, f)
    ensures multiset(IngestOne(w, log, f).Of(t).batch)[r]
         == multiset(w.Of(t).batch)[r] + if t == f.partition.topic then FetchedCount(w, log, f, r) else 0
  {
    IngestOneBatch(w, log, f, t);
    FetchedCounts(w, log, f, r);
  }

  lemma IngestOneKeepsBatchOnce(w: World, log: Log, f: Fetch, t: Topic, r: Record)
    requires CanFetch(w, log, f) && w.Com(r.partition) <= w.Pos(r.partition) && BatchOnce(w, log, t, r)
    ensures BatchOnce(IngestOne(w, log, f), log, t, r)
  {
    var w' := IngestOne(w, log, f);
    assert w'.Com(r.partition) == w.Com(r.partition)
        && w'.Pos(r.partition)
            == (if r.partition == f.partition then w.Pos(r.partition) + f.count else w.Pos(r.partition)) by {
      IngestOneEffect(w, log, f);
    }
    IngestOneCounts(w, log, f, t, r);
  }

  lemma IngestOneKeepsOnceEach(w: World, log: Log, f: Fetch)
    requires PositionsAgree(w, log) && OnceEach(w, log) && w.status == Running
    ensures OnceEach(IngestOne(w, log, f), log) && IngestOne(w, log, f).status == Running
  {
    if CanFetch(w, log, f) {
      var w' := IngestOne(w, log, f);
      IngestOneEffect(w, log, f);
      forall r: Record ensures SinkOnce(w', log, r) { assert SinkOnce(w, log, r); }
      forall t: Topic, r: Record ensures BatchOnce(w', log, t, r) {
        assert BatchOnce(w, log, t, r);
        assert w.Com(r.partition) <= w.Pos(r.partition);
        IngestOneKeepsBatchOnce(w, log, f, t, r);
      }
    }
  }

  lemma {:induction false} IngestKeepsOnceEach(w: World, log: Log, fetches: seq<Fetch>)
    requires Inv(w, log) && OnceEach(w, log) && w.status == Running
    ensures OnceEach(Ingest(w, log, fetches), log) && Ingest(w, log, fetches).status == Running
  {
    if fetches != [] {
      var init := fetches[..|fetches| - 1];
      IngestKeepsOnceEach(w, log, init);
      IngestKeepsInv(w, log, init);
      IngestOneKeepsOnceEach(Ingest(w, log, init), log, fetches[|fetches| - 1]);
    }
  }

  lemma DrainEffect(w: World, log: Log, t: Topic, a: Answers, c: Commit)
    requires PositionsAgree(w, log) && Sound(w, log) && CleanDrain(w, t, a, c) && w.Of(t).batch != []
    ensures var w' := DrainTopic(w, t, a, c).0;
            && w'.status == w.status && DrainTopic(w, t, a, c).1
            && multiset(w'.sink) == multiset(w.sink) + multiset(w.Of(t).batch)
            && (forall u: Topic :: w'.Of(u) == w.Of(u))
            && (forall p: Partition :: w'.Pos(p) == w.Pos(p))
            && (forall p: Partition :: w'.Com(p) == if p.topic == t then w.Pos(p) else w.Com(p))
  {
    var rows, offsets := Flush(t, w.Of(t).batch, a).rows, w.Of(t).offsets;
    var w1 := w.(sink := w.sink + rows);
    assert multiset(rows) == multiset(w.Of(t).batch) by { FlushLandsTheBatch(t, w.Of(t).batch, a); }
    CommitEffect(w, log, t, c);
    DrainShape(w, t, a, c);
    assert CommitOffsets(w1, offsets, c) == CommitOffsets(w, offsets, c).(sink := w1.sink);
  }

  lemma DrainShape(w: World, t: Topic, a: Answers, c: Commit)
    requires CleanDrain(w, t, a, c) && w.Of(t).batch != []
    ensures var w1 := w.(sink := w.sink + Flush(t, w.Of(t).batch, a).rows);
            DrainTopic(w, t, a, c) == (CommitOffsets(w1, w.Of(t).offsets, c), true)
  {
    var w1 := w.(sink := w.sink + Flush(t, w.Of(t).batch, a).rows);
    if w.Of(t).offsets == map[] {
      assert w1.committed + map[] == w1.committed;
    }
  }

  ghost predicate Caught(w: World, log: Log, t: Topic) {
    forall r: Record | r.partition.topic == t :: CaughtUp(w, log, r)
  }

  // Writing and committing a batch that is the gap moves exactly the gap into the sink.
  lemma DrainMovesTheGap(w: World, log: Log, t: Topic, a: Answers, c: Commit)
    requires PositionsAgree(w, log) && Sound(w, log) && CleanDrain(w, t, a, c)
    requires (forall r: Record :: SinkOnce(w, log, r)) && (forall r: Record :: BatchOnce(w, log, t, r))
    ensures var w' := DrainTopic(w, t, a, c).0;
            && w'.status == w.status && DrainTopic(w, t, a, c).1
            && (forall r: Record :: SinkOnce(w', log, r)) && Caught(w', log, t)
            && (forall u: Topic :: w'.Of(u) == w.Of(u))
            && (forall p: Partition :: w'.Pos(p) == w.Pos(p))
            && (forall p: Partition :: p.topic != t ==> w'.Com(p) == w.Com(p))
  {
    var w' := DrainTopic(w, t, a, c).0;
    if w.Of(t).batch == [] {
      forall r: Record | r.partition.topic == t ensures CaughtUp(w', log, r) {
        assert BatchOnce(w, log, t, r);
      }
    } else {
      DrainEffect(w, log, t, a, c);
      forall r: Record ensures SinkOnce(w', log, r) {
        assert SinkOnce(w, log, r) && BatchOnce(w, log, t, r);
        assert w.Com(r.partition) <= w.Pos(r.partition);
      }
    }
  }

  lemma CleanFlushClears(w: World, t: Topic, now: real, after: real, a: Answers, c: Commit)
    requires Due(w.Of(t), now) && CleanDrain(w, t, a, c)
    ensures FlushTopic(w, t, now, after, a, c) == DrainTopic(w, t, a, c).0.With(t, TopicState([], map[], after, 0))
  {
    DrainShape(w, t, a, c);
  }

  lemma FlushKeepsOnceEach(w: World, log: Log, t: Topic, now: real, after: real, a: Answers, c: Commit)
    requires PositionsAgree(w, log) && Sound(w, log) && OnceEach(w, log) && w.status == Running
    requires Due(w.Of(t), now) && CleanDrain(w, t, a, c)
    ensures OnceEach(FlushTopic(w, t, now, after, a, c), log)
  {
    var w1 := DrainTopic(w, t, a, c).0;
    DrainMovesTheGap(w, log, t, a, c);
    CleanFlushClears(w, t, now, after, a, c);
    forall u: Topic, r: Record | u != t ensures BatchOnce(w1, log, u, r) {
      assert BatchOnce(w, log, u, r);
    }
    ClearKeepsOnceEach(w1, log, t, after);
  }

  // Forgetting the batch of a topic that has caught up.
  lemma ClearKeepsOnceEach(w: World, log: Log, t: Topic, after: real)
    requires w.status == Running && Caught(w, log, t) && forall r: Record :: SinkOnce(w, log, r)
    requires forall u: Topic, r: Record | u != t :: BatchOnce(w, log, u, r)
    ensures OnceEach(w.With(t, TopicState([], map[], after, 0)), log)
  {
    var w' := w.With(t, TopicState([], map[], after, 0));
    forall r: Record ensures SinkOnce(w', log, r) { assert SinkOnce(w, log, r); }
    forall u: Topic, r: Record ensures BatchOnce(w', log, u, r) {
      if u == t {
        assert w'.Of(u).batch == [];
        assert r.partition.topic == t ==> CaughtUp(w, log, r);
      } else {
        assert BatchOnce(w, log, u, r);
      }
    }
  }

  lemma ShutdownKeepsOnceEach(w: World, log: Log, a0: Answers, c0: Commit, a1: Answers, c1: Commit)
    requires Inv(w, log) && OnceEach(w, log) && w.status == Running && CleanStep(w, Stop(a0, c0, a1, c1))
    ensures OnceEach(Shutdown(w, a0, c0, a1, c1), log)
  {
    DrainMovesTheGap(w, log, LogsTopic, a0, c0);
    DrainTopicKeepsInv(w, log, LogsTopic, a0, c0);
    var w1 := DrainTopic(w, LogsTopic, a0, c0).0;
    forall r: Record ensures BatchOnce(w1, log, TracesTopic, r) {
      assert BatchOnce(w, log, TracesTopic, r);
    }
    LastDrainKeepsOnceEach(w1, log, a1, c1);
  }

  lemma LastDrainKeepsOnceEach(w: World, log: Log, a: Answers, c: Commit)
    requires PositionsAgree(w, log) && Sound(w, log) && CleanDrain(w, TracesTopic, a, c)
    requires (forall r: Record :: SinkOnce(w, log, r)) && (forall r: Record :: BatchOnce(w, log, TracesTopic, r))
    requires Caught(w, log, LogsTopic)
    ensures OnceEach(DrainTopic(w, TracesTopic, a, c).0.(status := Stopped), log)
  {
    DrainMovesTheGap(w, log, TracesTopic, a, c);
    var w1 := DrainTopic(w, TracesTopic, a, c).0;
    var w' := w1.(status := Stopped);
    forall r: Record ensures SinkOnce(w', log, r) && CaughtUp(w', log, r) {
      assert SinkOnce(w1, log, r);
      if r.partition.topic == LogsTopic { assert CaughtUp(w, log, r); } else { assert CaughtUp(w1, log, r); }
    }
  }

  lemma ReviveKeepsOnceEach(w: World, log: Log, clock: real)
    requires OnceEach(w, log) && w.status == Stopped
    ensures OnceEach(Restart(w, clock), log)
  {
    var w' := Restart(w, clock);
    assert forall p: Partition :: w'.Pos(p) == w.Com(p) && w'.Com(p) == w.Com(p);
    forall r: Record ensures SinkOnce(w', log, r) { assert SinkOnce(w, log, r); }
    forall t: Topic, r: Record ensures BatchOnce(w', log, t, r) { assert w'.Of(t).batch == []; }
  }

  lemma CleanNextKeepsOnceEach(w: World, log: Log, s: Step)
    requires Inv(w, log) && OnceEach(w, log) && CleanStep(w, s)
    ensures OnceEach(Next(w, log, s), log)
  {
    if s.Revive? {
      ReviveKeepsOnceEach(w, log, s.clock);
    } else if w.status == Running {
      match s
      case Poll(fetches) => IngestKeepsOnceEach(w, log, fetches);
      case FlushStep(t, now, after, a, c) =>
        if Due(w.Of(t), now) { FlushKeepsOnceEach(w, log, t, now, after, a, c); }
      case Resume => SameCountsSameOnce(w, Next(w, log, s), log);
      case Stop(a0, c0, a1, c1) => ShutdownKeepsOnceEach(w, log, a0, c0, a1, c1);
    }
  }

  // EXACTLY ONCE: over a run with no refused insert, no lost commit and no kill, the sink holds
  // every committed message exactly once and nothing else; after a clean shutdown only malformed
  // messages are left to be fetched again.
  lemma {:induction false} CleanRunsDeliverExactlyOnce(log: Log, clock: real, steps: seq<Step>)
    requires CleanRun(Initial(clock), log, steps)
    ensures OnceEach(Run(Initial(clock), log, steps), log)
  {
    var w := Run(Initial(clock), log, steps);
    if steps == [] {
      assert forall t: Topic :: w.Of(t) == TopicState([], map[], clock, 0);
      forall t: Topic, r: Record ensures BatchOnce(w, log, t, r) { assert w.Of(t).batch == []; }
    } else {
      var init := steps[..|steps| - 1];
      CleanRunsDeliverExactlyOnce(log, clock, init);
      EveryRunIsDurable(log, clock, init);
      CleanNextKeepsOnceEach(Run(Initial(clock), log, init), log, steps[|steps| - 1]);
    }
  }

  lemma CleanStopLeavesOnlyMalformed(log: Log, clock: real, steps: seq<Step>)
    requires CleanRun(Initial(clock), log, steps)
    ensures var w := Run(Initial(clock), log, steps);
            w.status == Stopped ==>
              forall p: Partition, o: nat :: w.Com(p) <= o < w.Pos(p) && o < |Messages(log, p)|
                                             ==> Messages(log, p)[o] == Malformed
  {
    var w := Run(Initial(clock), log, steps);
    CleanRunsDeliverExactlyOnce(log, clock, steps);
    if w.status == Stopped {
      forall p: Partition, o: nat | w.Com(p) <= o < w.Pos(p) && o < |Messages(log, p)|
        ensures Messages(log, p)[o] == Malformed
      {
        var m := Messages(log, p)[o];
        assert m.Decodable? ==> CaughtUp(w, log, Record(m.payload, m.tenant, p, o));
      }
    }
  }
}
