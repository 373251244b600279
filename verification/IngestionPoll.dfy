/**
  What a poll, a stop and a restart do to the worker, in terms of the messages of the log and of the
  fields of its state.
*/
module IngestionPoll {
  import opened IngestionWorker
  import Sequences

  // The record a message of partition `p` becomes.
  function RecordAt(p: Partition, messages: seq<Message>, i: nat): Record
    requires i < |messages| && messages[i].Decodable?
  {
    Record(messages[i].payload, messages[i].tenant, p, i)
  }

  lemma SliceIsDecoded(p: Partition, messages: seq<Message>, from: nat, n: nat, i: nat)
    requires from <= i < from + n <= |messages| && messages[i].Decodable?
    ensures RecordAt(p, messages, i) in Decoded(p, from, messages[from..from + n])
  {
    DecodedContent(p, from, messages[from..from + n]);
    assert messages[from..from + n][i - from] == messages[i];
  }

  lemma NextIsPending(offsets: map<Partition, nat>, p: Partition, from: nat, n: nat)
    requires p in offsets ==> offsets[p] < from
    ensures Tracked(offsets, p, from, n) == if n == 0 then offsets else offsets[p := from + n - 1]
  {
  }

  // FETCHING: the next `n` messages of a partition that is not paused are all taken: each that can
  // be decoded is in the batch with its own partition and offset, and the last offset is pending.
  lemma FetchTakesTheLog(w: World, log: Log, p: Partition, n: nat)
    requires p in log && p !in w.paused && w.Pos(p) + n <= |log[p]|
    requires p in w.Of(p.topic).offsets ==> w.Of(p.topic).offsets[p] < w.Pos(p)
    ensures var w', from, st := IngestOne(w, log, Fetch(p, n)), w.Pos(p), w.Of(p.topic);
            && w'.Pos(p) == from + n
            && st.batch <= w'.Of(p.topic).batch
            && (forall i :: from <= i < from + n && log[p][i].Decodable? ==>
                  RecordAt(p, log[p], i) in w'.Of(p.topic).batch)
            && w'.Of(p.topic).offsets == if n == 0 then st.offsets else st.offsets[p := from + n - 1]
  {
    var from, st := w.Pos(p), w.Of(p.topic);
    assert Messages(log, p) == log[p];
    IngestOneEffect(w, log, Fetch(p, n));
    NextIsPending(st.offsets, p, from, n);
    var rows := Decoded(p, from, log[p][from..from + n]);
    forall i | from <= i < from + n && log[p][i].Decodable? ensures RecordAt(p, log[p], i) in st.batch + rows {
      SliceIsDecoded(p, log[p], from, n, i);
    }
  }

  // A poll returns nothing of a paused partition.
  lemma PausedFetchesNothing(w: World, log: Log, p: Partition, n: nat)
    requires p in w.paused
    ensures IngestOne(w, log, Fetch(p, n)) == w
  {
  }

  lemma DrainSink(w: World, t: Topic, a: Answers, c: Commit)
    ensures var (w', goOn) := DrainTopic(w, t, a, c);
            && w'.sink == (if w.Of(t).batch == [] then w.sink else w.sink + Flush(t, w.Of(t).batch, a).rows)
            && (w.Of(t).batch == [] ==> goOn)
            && w'.logs == w.logs && w'.traces == w.traces
  {
  }

  // STOPPING: a stop flushes what is left of the logs once more, whether it is due or not, then,
  // unless that raised, of the traces, and the worker is gone.
  lemma StopFlushesOnceMore(w: World, log: Log, a0: Answers, c0: Commit, a1: Answers, c1: Commit)
    requires w.status != Stopped
    ensures var w' := Next(w, log, Stop(a0, c0, a1, c1));
            && w'.status == Stopped
            && (w.logs.batch != [] ==> w.sink + Flush(LogsTopic, w.logs.batch, a0).rows <= w'.sink)
            && (w.logs.batch == [] && w.traces.batch != [] ==>
                  w'.sink == w.sink + Flush(TracesTopic, w.traces.batch, a1).rows)
  {
    DrainSink(w, LogsTopic, a0, c0);
    DrainSink(DrainTopic(w, LogsTopic, a0, c0).0, TracesTopic, a1, c1);
  }

  // RESTARTING: a new process starts from the commits with nothing in hand, and the sink keeps what
  // it has.
  lemma RestartForgets(w: World, log: Log, clock: real)
    ensures var w' := Next(w, log, Revive(clock));
            && w'.status == Running && w'.sink == w.sink && w'.paused == {}
            && (forall t: Topic :: w'.Of(t) == TopicState([], map[], clock, 0))
            && (forall p: Partition :: w'.Pos(p) == w.Com(p) == w'.Com(p))
  {
  }

  // A run does its steps one after the other.
  lemma {:induction false} RunsContinue(w: World, log: Log, a: seq<Step>, b: seq<Step>)
    ensures Run(w, log, a + b) == Run(Run(w, log, a), log, b)
    ensures b != [] ==> Run(w, log, a + [b[0]]) == Next(Run(w, log, a), log, b[0])
  {
    if b == [] {
      assert a + b == a;
    } else {
      RunsContinue(w, log, a, b[..|b| - 1]);
      Sequences.InitOfConcat(a, b);
      Sequences.InitOfSnoc(a, b[0]);
    }
  }
}
