/**
  How large the batches of the ingestion worker grow: backpressure keeps each to the source's
  ceiling and one poll of the partitions it holds pending offsets of.
*/
module IngestionCeiling {
  import opened IngestionWorker

  // One poll returns each partition at most once, and at most `f` messages of it.
  predicate BoundedPoll(fetches: seq<Fetch>, f: nat) {
    && (forall i :: 0 <= i < |fetches| ==> fetches[i].count <= f)
    && (forall i, j :: 0 <= i < j < |fetches| ==> fetches[i].partition != fetches[j].partition)
  }

  // Past the ceiling every pending partition is paused, and a batch is never past it by more
  // than one poll of each pending partition.
  ghost predicate Ceiling(w: World, t: Topic, f: nat) {
    && (|w.Of(t).batch| > MAX_BATCH ==> w.Of(t).offsets.Keys <= w.paused)
    && |w.Of(t).batch| <= MAX_BATCH + f * |w.Of(t).offsets.Keys|
  }

  lemma {:induction false} DecodedLength(p: Partition, from: nat, msgs: seq<Message>)
    ensures |Decoded(p, from, msgs)| <= |msgs|
  {
    if msgs != [] {
      DecodedLength(p, from, msgs[..|msgs| - 1]);
    }
  }

  predicate Touches(w: World, log: Log, t: Topic, x: Fetch) {
    CanFetch(w, log, x) && x.partition.topic == t && x.count > 0
  }

  // What one fetch of topic `t` does to the size of its batch and to its pending partitions.
  lemma FetchGrowth(w: World, log: Log, t: Topic, x: Fetch)
    ensures var w' := IngestOne(w, log, x);
            && w'.paused == w.paused
            && (if Touches(w, log, t, x)
                then w'.Of(t).offsets.Keys == w.Of(t).offsets.Keys + {x.partition}
                     && |w'.Of(t).batch| <= |w.Of(t).batch| + x.count
                else w'.Of(t).offsets.Keys == w.Of(t).offsets.Keys && |w'.Of(t).batch| == |w.Of(t).batch|)
  {
    IngestOneKeepsClock(w, log, x);
    if CanFetch(w, log, x) {
      IngestOneEffect(w, log, x);
      DecodedLength(x.partition, w.Pos(x.partition),
                    Messages(log, x.partition)[w.Pos(x.partition)..w.Pos(x.partition) + x.count]);
    }
  }

  lemma FetchTouches(w: World, log: Log, t: Topic, x: Fetch, f: nat, touched: set<Partition>)
    requires touched <= w.Of(t).offsets.Keys && |w.Of(t).batch| <= MAX_BATCH + f * |touched|
    requires x.count <= f && (CanFetch(w, log, x) ==> x.partition !in touched)
    ensures var w' := IngestOne(w, log, x);
            var touched' := if Touches(w, log, t, x) then touched + {x.partition} else touched;
            && w'.paused == w.paused
            && touched' <= w'.Of(t).offsets.Keys && |w'.Of(t).batch| <= MAX_BATCH + f * |touched'|
  {
    FetchGrowth(w, log, t, x);
    if Touches(w, log, t, x) {
      OneMoreFetch(|w.Of(t).batch|, x.count, f, touched, x.partition);
    }
  }

  lemma OneMoreFetch(size: nat, count: nat, f: nat, touched: set<Partition>, p: Partition)
    requires size <= MAX_BATCH + f * |touched| && count <= f && p !in touched
    ensures size + count <= MAX_BATCH + f * |touched + {p}|
  {
    assert |touched + {p}| == |touched| + 1;
    OneMoreShare(f, |touched|);
  }

  // The partitions a poll adds to `base`, none of which it may fetch from, each cost one fetch.
  lemma {:induction false} PollGrowth(w: World, log: Log, t: Topic, fetches: seq<Fetch>, f: nat, base: set<Partition>)
    returns (touched: set<Partition>)
    requires BoundedPoll(fetches, f) && base <= w.paused && base <= w.Of(t).offsets.Keys
    requires |w.Of(t).batch| <= MAX_BATCH + f * |base|
    ensures var w' := Ingest(w, log, fetches);
            && w'.paused == w.paused && touched <= w'.Of(t).offsets.Keys
            && |w'.Of(t).batch| <= MAX_BATCH + f * |touched|
    ensures forall p <- touched :: p in base || exists i :: 0 <= i < |fetches| && fetches[i].partition == p
  {
    if fetches == [] {
      touched := base;
    } else {
      var n := |fetches| - 1;
      var w1 := Ingest(w, log, fetches[..n]);
      var x := fetches[n];
      touched := PollGrowth(w, log, t, fetches[..n], f, base);
      assert CanFetch(w1, log, x) ==> x.partition !in touched;
      FetchTouches(w1, log, t, x, f, touched);
      if Touches(w1, log, t, x) {
        touched := touched + {x.partition};
      }
    }
  }

  lemma OneMoreShare(f: nat, n: nat)
    ensures f * (n + 1) == f * n + f
  {
  }

  lemma MoreShares(f: nat, small: set<Partition>, large: set<Partition>)
    requires small <= large
    ensures f * |small| <= f * |large|
  {
    assert large == small + (large - small);
    assert |large| == |small| + |large - small|;
    assert f * |large| == f * |small| + f * |large - small|;
  }

  lemma PollKeepsBound(w: World, log: Log, t: Topic, fetches: seq<Fetch>, f: nat)
    requires Ceiling(w, t, f) && BoundedPoll(fetches, f)
    ensures var w' := Ingest(w, log, fetches); |w'.Of(t).batch| <= MAX_BATCH + f * |w'.Of(t).offsets.Keys|
  {
    var base: set<Partition> := if |w.Of(t).batch| > MAX_BATCH then w.Of(t).offsets.Keys else {};
    var touched := PollGrowth(w, log, t, fetches, f, base);
    MoreShares(f, touched, Ingest(w, log, fetches).Of(t).offsets.Keys);
  }

  lemma SettleReachesCeiling(w: World, t: Topic, outcome: Outcome, after: real, c: Commit, f: nat)
    requires |w.Of(t).batch| <= MAX_BATCH + f * |w.Of(t).offsets.Keys|
    ensures var w' := Settle(w, t, outcome, after, c); w'.status == Running ==> Ceiling(w', t, f)
  {
    var st, w' := w.Of(t), Settle(w, t, outcome, after, c);
    match outcome
    case Raised =>
    case Written =>
      if w'.status == Running {
        assert w'.Of(t).batch == [];
      }
    case Rejected =>
      assert w'.Of(t).batch == st.batch && w'.Of(t).offsets == st.offsets;
  }

  // A flush pass over the ceiling is always due, and a failed one pauses what is pending.
  lemma FlushReachesCeiling(w: World, t: Topic, now: real, after: real, a: Answers, c: Commit, f: nat)
    requires |w.Of(t).batch| <= MAX_BATCH + f * |w.Of(t).offsets.Keys|
    ensures var w' := FlushTopic(w, t, now, after, a, c); w'.status == Running ==> Ceiling(w', t, f)
  {
    if Due(w.Of(t), now) {
      var r := Flush(t, w.Of(t).batch, a);
      var w1 := w.(sink := w.sink + r.rows);
      assert w1.Of(t) == w.Of(t);
      SettleReachesCeiling(w1, t, r.outcome, after, c, f);
    }
  }

  lemma FlushKeepsOtherCeiling(w: World, t: Topic, u: Topic, now: real, after: real, a: Answers, c: Commit, f: nat)
    requires u != t
    ensures var w' := FlushTopic(w, t, now, after, a, c);
            w'.Of(u) == w.Of(u) && w.paused <= w'.paused
  {
  }

  // A drained topic may be resumed: it is far from its ceiling.
  lemma ResumeKeepsCeiling(w: World, u: Topic, t: Topic, f: nat)
    requires OwnOffsets(w, t) && Ceiling(w, t, f)
    ensures Ceiling(ResumeTopic(w, u), t, f)
  {
    var w' := ResumeTopic(w, u);
    assert w'.Of(t) == w.Of(t);
    if |w.Of(t).batch| > MAX_BATCH {
      forall p | p in w.Of(t).offsets.Keys ensures p in w'.paused {
        assert p in w.paused && p.topic == t;
      }
    }
  }

  // HEAP CEILING: a turn not left by an exception keeps both topics to the ceiling plus one poll
  // of each pending partition.
  lemma TurnKeepsCeiling(w: World, log: Log, c: Cycle, f: nat)
    requires Inv(w, log) && BoundedPoll(c.fetches, f) && forall t: Topic :: Ceiling(w, t, f)
    ensures Turn(w, log, c).status == Running ==> forall t: Topic :: Ceiling(Turn(w, log, c), t, f)
  {
    if Turn(w, log, c).status == Running {
      forall t: Topic ensures Ceiling(Turn(w, log, c), t, f) {
        assert Ceiling(w, t, f);
        TopicKeepsCeiling(w, log, c, t, f);
      }
    }
  }

  function AfterLogs(w: World, log: Log, c: Cycle): World {
    FlushTopic(Ingest(w, log, c.fetches), LogsTopic, c.now0, c.after0, c.answers0, c.commit0)
  }

  function AfterTraces(w: World, log: Log, c: Cycle): World {
    FlushTopic(AfterLogs(w, log, c), TracesTopic, c.now1, c.after1, c.answers1, c.commit1)
  }

  // The worlds a turn that no exception leaves goes through.
  lemma RunningTurn(w: World, log: Log, c: Cycle)
    requires Turn(w, log, c).status == Running
    ensures AfterLogs(w, log, c).status == Running && AfterTraces(w, log, c).status == Running
    ensures Turn(w, log, c) == ResumeTopic(ResumeTopic(AfterTraces(w, log, c), LogsTopic), TracesTopic)
  {
    TurnUnfolds(w, log, c);
  }

  lemma AfterTracesKeepsInv(w: World, log: Log, c: Cycle)
    requires Inv(w, log)
    ensures Inv(AfterTraces(w, log, c), log)
  {
    IngestKeepsInv(w, log, c.fetches);
    FlushTopicKeepsInv(Ingest(w, log, c.fetches), log, LogsTopic, c.now0, c.after0, c.answers0, c.commit0);
    FlushTopicKeepsInv(AfterLogs(w, log, c), log, TracesTopic, c.now1, c.after1, c.answers1, c.commit1);
  }

  lemma TopicKeepsCeiling(w: World, log: Log, c: Cycle, t: Topic, f: nat)
    requires Inv(w, log) && BoundedPoll(c.fetches, f) && Ceiling(w, t, f) && Turn(w, log, c).status == Running
    ensures Ceiling(Turn(w, log, c), t, f)
  {
    var w3 := AfterTraces(w, log, c);
    RunningTurn(w, log, c);
    PollKeepsBound(w, log, t, c.fetches, f);
    FlushesReachCeiling(Ingest(w, log, c.fetches), c, t, f);
    assert OwnOffsets(w3, t) by { AfterTracesKeepsInv(w, log, c); }
    ResumeKeepsCeiling(w3, LogsTopic, t, f);
    ResumeKeepsCeiling(ResumeTopic(w3, LogsTopic), TracesTopic, t, f);
  }

  lemma FlushesReachCeiling(w: World, c: Cycle, t: Topic, f: nat)
    requires |w.Of(t).batch| <= MAX_BATCH + f * |w.Of(t).offsets.Keys|
    ensures var w1 := FlushTopic(w, LogsTopic, c.now0, c.after0, c.answers0, c.commit0);
            var w2 := FlushTopic(w1, TracesTopic, c.now1, c.after1, c.answers1, c.commit1);
            w1.status == Running && w2.status == Running ==> Ceiling(w2, t, f)
  {
    var w1 := FlushTopic(w, LogsTopic, c.now0, c.after0, c.answers0, c.commit0);
    if t == LogsTopic {
      FlushReachesCeiling(w, LogsTopic, c.now0, c.after0, c.answers0, c.commit0, f);
      FlushKeepsOtherCeiling(w1, TracesTopic, LogsTopic, c.now1, c.after1, c.answers1, c.commit1, f);
    } else {
      FlushKeepsOtherCeiling(w, LogsTopic, TracesTopic, c.now0, c.after0, c.answers0, c.commit0, f);
      FlushReachesCeiling(w1, TracesTopic, c.now1, c.after1, c.answers1, c.commit1, f);
    }
  }

  function PartitionsOf(log: Log, t: Topic): set<Partition> {
    set p | p in log && p.topic == t
  }

  // So at every loop head a batch holds at most the ceiling and one poll of every partition.
  lemma BatchIsBounded(w: World, log: Log, t: Topic, f: nat)
    requires Inv(w, log) && Ceiling(w, t, f)
    ensures |w.Of(t).batch| <= MAX_BATCH + f * |PartitionsOf(log, t)|
  {
    forall p | p in w.Of(t).offsets.Keys ensures p in PartitionsOf(log, t) {
      assert p.topic == t && w.Com(p) <= w.Pos(p) <= |Messages(log, p)|;
      assert w.Pos(p) == w.Of(p.topic).offsets[p] + 1;
    }
    MoreShares(f, w.Of(t).offsets.Keys, PartitionsOf(log, t));
  }
}
