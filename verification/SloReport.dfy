/**
  What a status and an evaluation report, in terms of the event counts and of the fields of the
  incidents alone.
*/
module SloReport {
  import opened Options
  import opened Reals
  import opened Slo
  import Sequences

  // ---------------------------------------------------------------- the status

  // A value is the percentage of good events; without any events it is 100.
  lemma ValueIsAPercentage(good: int, total: nat)
    ensures total > 0 ==> Value(good, total) * total as real == 100.0 * good as real
    ensures total == 0 ==> Value(good, total) == 100.0
  {
    if total > 0 {
      QuotientTimes(good as real, total as real);
      var q := good as real / total as real;
      assert q * 100.0 * total as real == 100.0 * (q * total as real);
    }
  }

  // The failures allowed are the events times what the target leaves of 100, in hundredths.
  lemma AllowanceIsTheRest(total: nat, target: real)
    ensures 100.0 * Allowed(total, target) == total as real * (100.0 - target)
  {
    var t := total as real;
    assert t * ((100.0 - target) / 100.0) * 100.0 == t * (100.0 - target);
  }

  lemma TruncateRange(x: real)
    ensures x >= 0.0 ==> Truncate(x) as real <= x < (Truncate(x) + 1) as real
    ensures x < 0.0 ==> (Truncate(x) - 1) as real < x <= Truncate(x) as real
  {
    assert x.Floor as real <= x < x.Floor as real + 1.0;
    assert (-x).Floor as real <= -x < (-x).Floor as real + 1.0;
  }

  // The budget is that allowance in whole events, rounded towards zero; what remains of it and what
  // has failed make it up.
  lemma BudgetIsExact(total: nat, good: int, target: real)
    requires total > 0
    ensures var b, allowed := BudgetOf(total, good, target), Allowed(total, target);
            && (allowed >= 0.0 ==> b.total as real <= allowed < (b.total + 1) as real)
            && (allowed < 0.0 ==> (b.total - 1) as real < allowed <= b.total as real)
            && b.remaining + (total - good) == b.total
            && b.current == Value(good, total)
  {
    TruncateRange(Allowed(total, target));
  }

  lemma BurnRateIsTheShareSpent(total: nat, good: int, target: real)
    requires total > 0
    ensures var b := BudgetOf(total, good, target);
            && (b.total > 0 ==> b.burnRate * b.total as real == (total - good) as real)
            && (b.total <= 0 ==> b.burnRate == 0.0)
  {
    var b := BudgetOf(total, good, target);
    if b.total > 0 {
      QuotientTimes((total - good) as real, b.total as real);
    }
  }

  lemma BreachedIffShort(total: nat, good: int, target: real)
    requires total > 0 && target <= 100.0
    ensures BudgetOf(total, good, target).status == Breached <==> 100.0 * good as real < target * total as real
    ensures good == total ==> BudgetOf(total, good, target).status != Breached
  {
    BreachedIffBelowTarget(total, good, target);
    BelowTargetCleared(total, good, target);
    Scaled(100.0, target, total as real);
  }

  // STATUS: with a target of at most 100, an availability objective is breached exactly when its
  // available events fall short of the target, a latency objective when its fast ones do, and one
  // of any other kind never.
  lemma StatusOfEachKind(o: Objective, a: Answers)
    requires a.Counted? && a.total > 0 && o.target <= 100.0
    ensures var breached := StatusSpec(o, a).status == Breached;
            && (o.sli == "availability" ==> (breached <==> 100.0 * a.available as real < o.target * a.total as real))
            && (o.sli == "latency" ==> (breached <==> 100.0 * a.fast as real < o.target * a.total as real))
            && (o.sli != "availability" && o.sli != "latency" ==> !breached)
  {
    BreachedIffShort(a.total, Good(o.sli, a), o.target);
  }

  // Without events, or without an answer, an objective is healthy and nothing is spent.
  lemma NoEventsIsHealthy(o: Objective, a: Answers)
    requires a.Unavailable? || a.total == 0
    ensures StatusSpec(o, a) == Budget(100.0, 0, 0, 0.0, Healthy)
  {
  }

  // ---------------------------------------------------------------- the incidents

  predicate BreachOf(i: Incident, o: Objective) {
    i.open && i.tenant == o.tenant && i.domain == o.service && i.title == "SLO Breach: " + o.name
  }

  predicate ForecastOf(i: Incident, o: Objective) {
    i.open && i.tenant == o.tenant && i.title == "Predictive Warning: " + o.name + " will breach soon"
  }

  lemma KeysAreFields(i: Incident, o: Objective)
    ensures Matches(i, BreachKey(o.tenant, o.service, o.name)) <==> BreachOf(i, o)
    ensures Matches(i, ForecastKey(o.tenant, o.name)) <==> ForecastOf(i, o)
  {
  }

  lemma {:induction false} LatestIsLatest(table: seq<Incident>, k: Key)
    ensures Latest(table, k).Some? ==>
              forall i <- table :: Matches(i, k) ==> i.created <= table[Latest(table, k).value].created
  {
    if table != [] {
      LatestIsLatest(table[..|table| - 1], k);
      assert forall i :: i in table <==> i in table[..|table| - 1] || i == table[|table| - 1];
    }
  }

  // A breach refreshes the latest open incident of its tenant, service and name, and only its
  // reported value; where none is open it opens one, with the next id.
  lemma BreachRefreshesOrOpens(w: World, o: Objective, s: Sample, now: real)
    requires s.Sampled? && Value(s.good, s.total) < o.target
    ensures var value, w' := Value(s.good, s.total), Evaluate(w, o, s, now);
            if exists i <- w.table :: BreachOf(i, o) then
              w'.nextId == w.nextId
              && exists n: nat :: Refreshes(w.table, w'.table, n, value) && BreachOf(w.table[n], o)
                                  && forall i <- w.table :: BreachOf(i, o) ==> i.created <= w.table[n].created
            else
              w' == World(w.table + [Incident(w.nextId, o.tenant, o.service, "SLO Breach: " + o.name,
                                              true, now, value, false)], w.nextId + 1)
  {
    var k, value, w' := BreachKey(o.tenant, o.service, o.name), Value(s.good, s.total), Evaluate(w, o, s, now);
    forall i | i in w.table ensures Matches(i, k) <==> BreachOf(i, o) {
      KeysAreFields(i, o);
    }
    LatestIsLatest(w.table, k);
    if Latest(w.table, k).Some? {
      var n := Latest(w.table, k).value;
      assert w.table[n] in w.table;
      assert Refreshes(w.table, w'.table, n, value);
    }
  }

  ghost predicate Refreshes(table: seq<Incident>, table': seq<Incident>, n: nat, value: real) {
    n < |table| && table' == table[n := table[n].(actual := value)]
  }

  // Without a breach, a forecast of one opens a warning with the next id where none is open for
  // its tenant and name; nothing else changes anything.
  lemma ForecastOpensOnce(w: World, o: Objective, s: Sample, now: real)
    requires s.Sampled? ==> Value(s.good, s.total) >= o.target
    ensures Evaluate(w, o, s, now) ==
            if s.Sampled? && s.forecast && !(exists i <- w.table :: ForecastOf(i, o)) then
              World(w.table + [Incident(w.nextId, o.tenant, o.service,
                                        "Predictive Warning: " + o.name + " will breach soon",
                                        true, now, Value(s.good, s.total), true)], w.nextId + 1)
            else w
  {
    var k := ForecastKey(o.tenant, o.name);
    forall i | i in w.table ensures Matches(i, k) <==> ForecastOf(i, o) {
      KeysAreFields(i, o);
    }
    if Latest(w.table, k).Some? {
      assert w.table[Latest(w.table, k).value] in w.table;
    }
  }

  // Two open incidents of a run without reopening are never the same objective's.
  lemma OpenIncidentsDiffer(w: World, steps: seq<Step>, m: nat, n: nat, o: Objective)
    requires AtMostOneOpen(w.table) && forall s <- steps :: !s.Reopen?
    requires m < n < |Run(w, steps).table|
    ensures var table := Run(w, steps).table;
            && !(BreachOf(table[m], o) && BreachOf(table[n], o))
            && !(ForecastOf(table[m], o) && ForecastOf(table[n], o))
  {
    var table := Run(w, steps).table;
    var breach, forecast := BreachKey(o.tenant, o.service, o.name), ForecastKey(o.tenant, o.name);
    RunsKeepOneOpen(w, steps);
    assert OpenCount(table, breach) <= 1 && OpenCount(table, forecast) <= 1;
    if BreachOf(table[m], o) && BreachOf(table[n], o) {
      TwoOpen(table, m, n, breach);
    }
    if ForecastOf(table[m], o) && ForecastOf(table[n], o) {
      TwoOpen(table, m, n, forecast);
    }
  }

  lemma {:induction false} SetOpenIs(table: seq<Incident>, id: nat, open: bool)
    ensures |SetOpen(table, id, open)| == |table|
    ensures forall n :: 0 <= n < |table| ==>
              SetOpen(table, id, open)[n] == if table[n].id == id then table[n].(open := open) else table[n]
  {
    if table != [] {
      SetOpenIs(table[..|table| - 1], id, open);
    }
  }

  lemma {:induction false} RemoveKeeps(table: seq<Incident>, id: nat, i: Incident)
    ensures multiset(Remove(table, id))[i] == if i.id == id then 0 else multiset(table)[i]
  {
    if table != [] {
      var init, last := table[..|table| - 1], table[|table| - 1];
      RemoveKeeps(init, id, i);
      Sequences.MultisetOfLast(table);
      assert Remove(table, id) == if last.id == id then Remove(init, id) else Remove(init, id) + [last];
    }
  }

  // Resolving and reopening set one incident's state, wherever it is; deleting takes it out.
  lemma UserStepsChangeOne(w: World, id: nat)
    ensures var r, p, d := Next(w, Resolve(id)), Next(w, Reopen(id)), Next(w, Delete(id));
            && r.nextId == p.nextId == d.nextId == w.nextId
            && |r.table| == |p.table| == |w.table|
            && (forall n :: 0 <= n < |w.table| ==>
                  r.table[n] == if w.table[n].id == id then w.table[n].(open := false) else w.table[n])
            && (forall n :: 0 <= n < |w.table| ==>
                  p.table[n] == if w.table[n].id == id then w.table[n].(open := true) else w.table[n])
            && forall i: Incident :: multiset(d.table)[i] == if i.id == id then 0 else multiset(w.table)[i]
  {
    SetOpenIs(w.table, id, false);
    SetOpenIs(w.table, id, true);
    forall i: Incident ensures multiset(Remove(w.table, id))[i] == if i.id == id then 0 else multiset(w.table)[i] {
      RemoveKeeps(w.table, id, i);
    }
  }

  // A run does its steps one after the other.
  lemma {:induction false} RunsContinue(w: World, a: seq<Step>, b: seq<Step>)
    ensures Run(w, a + b) == Run(Run(w, a), b)
    ensures forall s: Step :: Run(w, [s]) == Next(w, s)
  {
    if b == [] {
      assert a + b == a;
    } else {
      RunsContinue(w, a, b[..|b| - 1]);
      Sequences.InitOfConcat(a, b);
    }
    forall s: Step ensures Run(w, [s]) == Next(w, s) {
      assert [s][..0] == [];
    }
  }

  // ---------------------------------------------------------------- the periodic task

  ghost predicate IsOpen(table: seq<Incident>, o: Objective) {
    exists i :: i in table && BreachOf(i, o)
  }

  lemma BreachIsOpen(w: World, o: Objective, s: Sample, now: real)
    requires s.Sampled? && Value(s.good, s.total) < o.target
    ensures IsOpen(Evaluate(w, o, s, now).table, o)
  {
    var w' := Evaluate(w, o, s, now);
    BreachRefreshesOrOpens(w, o, s, now);
    if i :| i in w.table && BreachOf(i, o) {
      var n: nat :| Refreshes(w.table, w'.table, n, Value(s.good, s.total)) && BreachOf(w.table[n], o);
      assert w'.table[n] in w'.table && BreachOf(w'.table[n], o);
    } else {
      assert w'.table[|w.table|] in w'.table;
    }
  }

  lemma EvaluationKeepsOpen(w: World, o: Objective, s: Sample, now: real, p: Objective)
    requires IsOpen(w.table, p)
    ensures IsOpen(Evaluate(w, o, s, now).table, p)
  {
    var w' := Evaluate(w, o, s, now);
    RefreshOnlyRewritesTheSummary(w, o, s, now);
    var i :| i in w.table && BreachOf(i, p);
    var n :| 0 <= n < |w.table| && w.table[n] == i;
    assert w'.table[n] in w'.table && BreachOf(w'.table[n], p);
  }

  // After the periodic task every objective sampled below its target has an open incident.
  lemma {:induction false} EveryBreachIsOpen(w: World, os: seq<Objective>, samples: seq<Sample>, now: real, n: nat)
    requires n < |os| == |samples| && samples[n].Sampled? && Value(samples[n].good, samples[n].total) < os[n].target
    ensures IsOpen(EvaluateAll(w, os, samples, now).table, os[n])
  {
    var last := |os| - 1;
    var before := EvaluateAll(w, os[..last], samples[..last], now);
    if n < last {
      EveryBreachIsOpen(w, os[..last], samples[..last], now, n);
      EvaluationKeepsOpen(before, os[last], samples[last], now, os[n]);
    } else {
      BreachIsOpen(before, os[last], samples[last], now);
    }
  }
}
