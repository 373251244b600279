/**
  What one flush pass of the ingestion worker leaves in the sink: each tenant's rows, and each
  trace, by its own answer alone, and every batch that is due.
*/
module IngestionFlush {
  import opened IngestionWorker

  // ---------------------------------------------------------------- logs, tenant by tenant

  ghost predicate AllOf(rows: seq<Record>, t: Tenant) {
    forall r <- rows :: r.tenant == t
  }

  lemma {:induction false} RowsOfOneTenant(rows: seq<Record>, t: Tenant, u: Tenant)
    requires AllOf(rows, t)
    ensures ForTenant(rows, u) == if u == t then rows else []
  {
    if rows != [] {
      var init, last := rows[..|rows| - 1], rows[|rows| - 1];
      assert last in rows && rows == init + [last];
      RowsOfOneTenant(init, t, u);
    }
  }

  lemma LandedAreOneTenants(batch: seq<Record>, t: Tenant, answer: Insert)
    ensures AllOf(Landed(ForTenant(batch, t), answer), t)
  {
    var group := ForTenant(batch, t);
    LandedContent(group, answer);
    forall r | r in group ensures r.tenant == t {
      ForTenantCounted(batch, t, r);
      assert r in multiset(group);
    }
  }

  lemma GroupLandsAlone(batch: seq<Record>, u: Tenant, answer: Insert, t: Tenant)
    ensures var landed := Landed(ForTenant(batch, u), answer);
            ForTenant(landed, t) == if t == u then landed else []
  {
    LandedAreOneTenants(batch, u, answer);
    RowsOfOneTenant(Landed(ForTenant(batch, u), answer), u, t);
  }

  lemma LastTenantLands(batch: seq<Record>, order: seq<Tenant>, a: Answers, t: Tenant)
    requires order != []
    ensures var init, u := order[..|order| - 1], order[|order| - 1];
            ForTenant(TenantRows(batch, order, a), t) == ForTenant(TenantRows(batch, init, a), t)
              + if t == u then Landed(ForTenant(batch, u), a.tenants(u)) else []
  {
    var init, u := order[..|order| - 1], order[|order| - 1];
    GroupLandsAlone(batch, u, a.tenants(u), t);
    ForTenantConcat(TenantRows(batch, init, a), Landed(ForTenant(batch, u), a.tenants(u)), t);
  }

  lemma LastTenantIsNew(order: seq<Tenant>, t: Tenant)
    requires order != [] && Distinct(order)
    ensures var init, u := order[..|order| - 1], order[|order| - 1];
            Distinct(init) && u !in init && (t in order <==> t in init || t == u)
  {
    assert order == order[..|order| - 1] + [order[|order| - 1]];
  }

  lemma {:induction false} RowsOfEachTenant(batch: seq<Record>, order: seq<Tenant>, a: Answers, t: Tenant)
    requires Distinct(order)
    ensures t in order ==> ForTenant(TenantRows(batch, order, a), t) == Landed(ForTenant(batch, t), a.tenants(t))
    ensures t !in order ==> ForTenant(TenantRows(batch, order, a), t) == []
  {
    if order != [] {
      LastTenantIsNew(order, t);
      RowsOfEachTenant(batch, order[..|order| - 1], a, t);
      LastTenantLands(batch, order, a, t);
    }
  }

  // ISOLATION: whatever the other tenants' inserts answer, a flush of a groupable batch lands a
  // tenant's rows by that tenant's answer alone: all of them, in order, when they can be stored
  // and are accepted; a prefix when refused; none when one cannot be stored.
  lemma EachTenantLands(batch: seq<Record>, a: Answers, t: Tenant)
    requires Groupable(batch)
    ensures var landed, group := ForTenant(Flush(LogsTopic, batch, a).rows, t), ForTenant(batch, t);
            && landed <= group
            && (Storable(group) && a.tenants(t) == Accepted ==> landed == group)
            && (forall n: nat :: Storable(group) && a.tenants(t) == Refused(n) && n <= |group| ==> landed == group[..n])
            && (!Storable(group) ==> landed == [])
  {
    LandsItsOwn(batch, a, t);
    LandedCases(ForTenant(batch, t), a.tenants(t));
  }

  lemma LandsItsOwn(batch: seq<Record>, a: Answers, t: Tenant)
    requires Groupable(batch)
    ensures ForTenant(Flush(LogsTopic, batch, a).rows, t) == Landed(ForTenant(batch, t), a.tenants(t))
  {
    TenantsContent(batch);
    RowsOfEachTenant(batch, Tenants(batch), a, t);
    assert Flush(LogsTopic, batch, a).rows == TenantRows(batch, Tenants(batch), a);
    if t !in Tenants(batch) {
      TenantlessGroupIsEmpty(batch, t);
      NothingLandsNothing(a.tenants(t));
    }
  }

  lemma NothingLandsNothing(answer: Insert)
    ensures Landed([], answer) == []
  {
  }

  lemma LandedCases(group: seq<Record>, answer: Insert)
    ensures var landed := Landed(group, answer);
            && landed <= group
            && (Storable(group) && answer == Accepted ==> landed == group)
            && (forall n: nat :: Storable(group) && answer == Refused(n) && n <= |group| ==> landed == group[..n])
            && (!Storable(group) ==> landed == [])
  {
  }

  // ---------------------------------------------------------------- traces, one by one

  // Trace `r` can be stored, and its insert is accepted or leaves it behind.
  predicate TraceLands(r: Record, answer: Insert) {
    r.payload.storable && (answer.Accepted? || answer.landed > 0)
  }

  function HowMany(batch: seq<Record>, a: Answers, r: Record): nat {
    if batch == [] then 0
    else
      var n := |batch| - 1;
      HowMany(batch[..n], a, r) + if batch[n] == r && TraceLands(r, a.traces(n)) then 1 else 0
  }

  lemma OneTraceLands(r: Record, answer: Insert)
    ensures Landed([r], answer) == if TraceLands(r, answer) then [r] else []
  {
    assert r in [r];
    assert [r][..0] == [];
  }

  lemma {:induction false} TracesLandOneByOne(batch: seq<Record>, a: Answers, r: Record)
    ensures multiset(TraceRows(batch, a))[r] == HowMany(batch, a, r)
  {
    if batch != [] {
      var n := |batch| - 1;
      TracesLandOneByOne(batch[..n], a, r);
      OneTraceLands(batch[n], a.traces(n));
    }
  }

  lemma {:induction false} SomeTraceLands(batch: seq<Record>, a: Answers, i: nat)
    requires i < |batch| && TraceLands(batch[i], a.traces(i))
    ensures HowMany(batch, a, batch[i]) > 0
  {
    if i < |batch| - 1 {
      SomeTraceLands(batch[..|batch| - 1], a, i);
    }
  }

  // A flush of traces lands each of them, as often as the batch holds it, by its own answer alone.
  lemma EachTraceLands(batch: seq<Record>, a: Answers, r: Record)
    requires a.sessionOpens
    ensures multiset(Flush(TracesTopic, batch, a).rows)[r] == HowMany(batch, a, r)
    ensures forall i | 0 <= i < |batch| ::
              batch[i].payload.storable && a.traces(i) == Accepted ==> batch[i] in Flush(TracesTopic, batch, a).rows
  {
    var rows := Flush(TracesTopic, batch, a).rows;
    TracesLandOneByOne(batch, a, r);
    forall i | 0 <= i < |batch| && batch[i].payload.storable && a.traces(i) == Accepted ensures batch[i] in rows {
      SomeTraceLands(batch, a, i);
      TracesLandOneByOne(batch, a, batch[i]);
      assert multiset(rows)[batch[i]] > 0;
    }
  }

  // ---------------------------------------------------------------- the answer of a flush

  lemma {:induction false} TenantHasARow(batch: seq<Record>, t: Tenant) returns (r: Record)
    requires t in Tenants(batch)
    ensures r in batch && r.tenant == t
  {
    r := batch[|batch| - 1];
    if r.tenant != t {
      r := TenantHasARow(batch[..|batch| - 1], t);
    }
  }

  lemma TenantTaken(batch: seq<Record>, a: Answers, t: Tenant)
    requires t in Tenants(batch)
    ensures Takes(ForTenant(batch, t), a.tenants(t))
            <==> a.tenants(t) == Accepted && forall r <- batch :: r.tenant == t ==> r.payload.storable
  {
    forall r: Record ensures r in ForTenant(batch, t) <==> r in batch && r.tenant == t {
      ForTenantCounted(batch, t, r);
      assert r in ForTenant(batch, t) <==> multiset(ForTenant(batch, t))[r] > 0;
      assert r in batch <==> multiset(batch)[r] > 0;
    }
  }

  lemma AllTenantsTaken(batch: seq<Record>, a: Answers)
    ensures (forall t <- Tenants(batch) :: Takes(ForTenant(batch, t), a.tenants(t)))
            <==> forall r <- batch :: r.payload.storable && a.tenants(r.tenant) == Accepted
  {
    TenantsContent(batch);
    forall t | t in Tenants(batch)
      ensures Takes(ForTenant(batch, t), a.tenants(t))
              <==> a.tenants(t) == Accepted && forall r <- batch :: r.tenant == t ==> r.payload.storable
      ensures exists r :: r in batch && r.tenant == t
    {
      TenantTaken(batch, a, t);
      var r := TenantHasARow(batch, t);
    }
  }

  // A flush of logs returns True exactly when every row can be stored and every tenant's insert is
  // accepted, and raises exactly when some tenant cannot be a key.
  lemma LogFlushAnswers(batch: seq<Record>, a: Answers)
    ensures var outcome := Flush(LogsTopic, batch, a).outcome;
            && (outcome == Raised <==> exists r :: r in batch && r.tenant == Unhashable)
            && (outcome == Written <==> forall r <- batch ::
                  r.tenant != Unhashable && r.payload.storable && a.tenants(r.tenant) == Accepted)
  {
    AllTenantsTaken(batch, a);
  }

  // A flush of traces returns True exactly when its session opens and closes and every trace can be
  // stored and is accepted, and raises exactly when the session does.
  lemma TraceFlushAnswers(batch: seq<Record>, a: Answers)
    ensures var outcome := Flush(TracesTopic, batch, a).outcome;
            && (outcome == Raised <==> !a.sessionOpens || !a.sessionCloses)
            && (outcome == Written
                <==> a.sessionOpens && a.sessionCloses
                     && forall i :: 0 <= i < |batch| ==> batch[i].payload.storable && a.traces(i) == Accepted)
  {
    forall i | 0 <= i < |batch|
      ensures TraceTaken(batch, i, a) <==> batch[i].payload.storable && a.traces(i) == Accepted
    {
      assert batch[i] in [batch[i]];
    }
  }

  lemma SettleLeaves(w: World, t: Topic, outcome: Outcome, after: real, c: Commit)
    ensures var st, w' := w.Of(t), Settle(w, t, outcome, after, c);
            && (outcome == Rejected ==>
                  && w'.Of(t) == TopicState(st.batch, st.offsets, after, st.fails + 1)
                  && w'.paused == (if |st.batch| > 10000 then w.paused + st.offsets.Keys else w.paused)
                  && w'.committed == w.committed && w'.status == w.status)
            && (outcome == Raised ==> w'.Of(t) == st && w'.committed == w.committed && w'.status == Unwinding)
            && (outcome == Written ==>
                  if c.Acked? || st.offsets == map[]
                  then w'.Of(t) == TopicState([], map[], after, 0) && w'.status == w.status
                  else w'.Of(t) == st && w'.status == Unwinding)
  {
    match t
    case LogsTopic =>
    case TracesTopic =>
  }

  // What a flush leaves of its topic: nothing once it is written and committed; all of it, one
  // failure more and the linger started again, once it is refused, with its partitions paused if
  // it is over ten thousand records; and after an exception just what there was.
  lemma AfterAFlush(w: World, t: Topic, now: real, after: real, a: Answers, c: Commit)
    requires Overdue(w.Of(t), now)
    ensures var st, w' := w.Of(t), FlushTopic(w, t, now, after, a, c);
            match Flush(t, st.batch, a).outcome
            case Rejected =>
              && w'.Of(t) == TopicState(st.batch, st.offsets, after, st.fails + 1)
              && w'.paused == (if |st.batch| > 10000 then w.paused + st.offsets.Keys else w.paused)
              && w'.committed == w.committed && w'.status == w.status
            case Raised => w'.Of(t) == st && w'.committed == w.committed && w'.status == Unwinding
            case Written =>
              if c.Acked? || st.offsets == map[]
              then w'.Of(t) == TopicState([], map[], after, 0) && w'.status == w.status
              else w'.Of(t) == st && w'.status == Unwinding
  {
    var w1 := w.(sink := w.sink + Flush(t, w.Of(t).batch, a).rows);
    assert FlushTopic(w, t, now, after, a, c) == Settle(w1, t, Flush(t, w.Of(t).batch, a).outcome, after, c);
    SettleLeaves(w1, t, Flush(t, w.Of(t).batch, a).outcome, after, c);
  }

  // ---------------------------------------------------------------- which batches are flushed

  // `batch_size` records, or any at all once the linger has passed.
  predicate Overdue(st: TopicState, now: real) {
    st.batch != [] && (|st.batch| >= 1000 || st.last + 2.0 <= now)
  }

  // A pass flushes a topic's batch exactly when it is overdue, and else leaves everything alone.
  lemma OverdueIsFlushed(w: World, t: Topic, now: real, after: real, a: Answers, c: Commit)
    ensures Overdue(w.Of(t), now) ==>
              FlushTopic(w, t, now, after, a, c).sink == w.sink + Flush(t, w.Of(t).batch, a).rows
    ensures !Overdue(w.Of(t), now) ==> FlushTopic(w, t, now, after, a, c) == w
  {
  }

  lemma TurnSink(w: World, log: Log, c: Cycle)
    requires w.status == Running
    ensures var w2 := FlushTopic(Ingest(w, log, c.fetches), LogsTopic, c.now0, c.after0, c.answers0, c.commit0);
            Turn(w, log, c).sink == if w2.status == Running
                                    then FlushTopic(w2, TracesTopic, c.now1, c.after1, c.answers1, c.commit1).sink
                                    else w2.sink
  {
    TurnUnfolds(w, log, c);
    IngestKeepsRunning(w, log, c.fetches);
  }

  // Every turn of a running worker flushes what is overdue after its poll: the logs first, then,
  // unless an exception left the loop, the traces.
  lemma TurnFlushesOverdueLogs(w: World, log: Log, c: Cycle)
    requires w.status == Running
    ensures var w1 := Ingest(w, log, c.fetches);
            Overdue(w1.logs, c.now0) ==>
              w1.sink + Flush(LogsTopic, w1.logs.batch, c.answers0).rows <= Turn(w, log, c).sink
  {
    var w1 := Ingest(w, log, c.fetches);
    var w2 := FlushTopic(w1, LogsTopic, c.now0, c.after0, c.answers0, c.commit0);
    TurnSink(w, log, c);
    OverdueIsFlushed(w1, LogsTopic, c.now0, c.after0, c.answers0, c.commit0);
    OverdueIsFlushed(w2, TracesTopic, c.now1, c.after1, c.answers1, c.commit1);
  }

  lemma TurnFlushesOverdueTraces(w: World, log: Log, c: Cycle)
    requires w.status == Running
    ensures var w1 := Ingest(w, log, c.fetches);
            var w2 := FlushTopic(w1, LogsTopic, c.now0, c.after0, c.answers0, c.commit0);
            w2.status == Running && Overdue(w1.traces, c.now1) ==>
              Turn(w, log, c).sink == w2.sink + Flush(TracesTopic, w1.traces.batch, c.answers1).rows
  {
    var w1 := Ingest(w, log, c.fetches);
    var w2 := FlushTopic(w1, LogsTopic, c.now0, c.after0, c.answers0, c.commit0);
    TurnSink(w, log, c);
    FlushKeepsTraces(w1, c.now0, c.after0, c.answers0, c.commit0);
    OverdueIsFlushed(w2, TracesTopic, c.now1, c.after1, c.answers1, c.commit1);
  }

  lemma {:induction false} IngestKeepsRunning(w: World, log: Log, fetches: seq<Fetch>)
    ensures Ingest(w, log, fetches).status == w.status && Ingest(w, log, fetches).sink == w.sink
  {
    if fetches != [] {
      IngestKeepsRunning(w, log, fetches[..|fetches| - 1]);
    }
  }

  lemma FlushKeepsTraces(w: World, now: real, after: real, a: Answers, c: Commit)
    ensures FlushTopic(w, LogsTopic, now, after, a, c).traces == w.traces
  {
  }

  // ISOLATION IN THE SINK: a pass over overdue logs puts all rows of a tenant whose insert is
  // accepted in the sink, whoever else is refused.
  lemma AcceptedTenantReachesTheSink(w: World, log: Log, now: real, after: real, a: Answers, c: Commit, t: Tenant)
    requires w.status == Running && Overdue(w.logs, now) && Groupable(w.logs.batch)
    requires Storable(ForTenant(w.logs.batch, t)) && a.tenants(t) == Accepted
    ensures ForTenant(Next(w, log, FlushStep(LogsTopic, now, after, a, c)).sink, t)
         == ForTenant(w.sink, t) + ForTenant(w.logs.batch, t)
  {
    OverdueIsFlushed(w, LogsTopic, now, after, a, c);
    EachTenantLands(w.logs.batch, a, t);
    ForTenantConcat(w.sink, Flush(LogsTopic, w.logs.batch, a).rows, t);
  }
}
