/**
  Service level objectives: the error budget and status of one objective, and the incidents the
  periodic evaluator opens and refreshes.

  Query results, sampled event counts and the forecast are inputs; percentages are exact reals.
*/
module Slo {
  import opened Options

  datatype Objective = Objective(tenant: Option<int>, service: string, name: string, target: real, sli: string)

  // ---------------------------------------------------------------- the error budget

  datatype Status = Healthy | Warning | Breached

  datatype Day = Day(day: string, total: nat, good: nat)

  // What the event store answers: no client or a raised query, or the three counts and the days.
  datatype Answers = Unavailable | Counted(total: nat, available: nat, fast: nat, days: seq<Day>)

  datatype Budget = Budget(current: real, total: int, remaining: int, burnRate: real, status: Status)

  // `int(x)` truncates towards zero.
  function Truncate(x: real): int {
    if x >= 0.0 then x.Floor else -(-x).Floor
  }

  function Value(good: int, total: nat): real {
    if total > 0 then good as real / total as real * 100.0 else 100.0
  }

  function Allowed(total: nat, target: real): real {
    total as real * ((100.0 - target) / 100.0)
  }

  function BudgetOf(total: nat, good: int, target: real): Budget {
    if total == 0 then Budget(100.0, 0, 0, 0.0, Healthy)
    else
      var budget := Truncate(Allowed(total, target));
      var failures := total - good;
      var burnRate := if budget > 0 then failures as real / budget as real else 0.0;
      Budget(Value(good, total), budget, budget - failures, burnRate,
             if budget - failures < 0 then Breached else if burnRate > 0.8 then Warning else Healthy)
  }

  lemma Scaled(a: real, b: real, c: real)
    requires c > 0.0
    ensures a < b <==> a * c < b * c
  {
    if a < b {
      assert (b - a) * c > 0.0;
    } else {
      assert (a - b) * c >= 0.0;
    }
  }

  // Both sides of the comparison, cleared of fractions.
  lemma BelowTargetCleared(total: nat, good: int, target: real)
    requires total > 0
    ensures Value(good, total) < target <==> 100.0 * good as real < target * total as real
    ensures (total - good) as real > Allowed(total, target) <==> 100.0 * good as real < target * total as real
  {
    var t, g := total as real, good as real;
    var q := g / t;
    assert q * t == g;
    assert q * 100.0 * t == 100.0 * g;
    Scaled(q * 100.0, target, t);
    assert t * ((100.0 - target) / 100.0) * 100.0 == t * (100.0 - target);
    assert t * (100.0 - target) == 100.0 * t - target * t;
  }

  // AGREEMENT: with a target of at most 100, an objective that saw events is breached exactly when
  // its value is below the target, the evaluator's own test, although the budget is truncated.
  lemma BreachedIffBelowTarget(total: nat, good: int, target: real)
    requires total > 0 && target <= 100.0
    ensures BudgetOf(total, good, target).status == Breached <==> Value(good, total) < target
  {
    var x := Allowed(total, target);
    BelowTargetCleared(total, good, target);
    ProductNotNegative(total as real, (100.0 - target) / 100.0);
    assert x >= 0.0 && x.Floor as real <= x < x.Floor as real + 1.0;
  }

  lemma ProductNotNegative(a: real, b: real)
    requires a >= 0.0 && b >= 0.0
    ensures a * b >= 0.0
  {
  }

  // A target above 100 allows less than nothing.
  lemma ExcessCleared(total: nat, target: real)
    requires total > 0 && target > 100.0
    ensures -100.0 * Allowed(total, target) == total as real * (target - 100.0) && Allowed(total, target) < 0.0
  {
    var t := total as real;
    assert -(t * ((100.0 - target) / 100.0)) == t * ((target - 100.0) / 100.0);
    ProductPositive(t, (target - 100.0) / 100.0);
    assert t * ((target - 100.0) / 100.0) * 100.0 == t * (target - 100.0);
  }

  // Above 100 the truncation goes the other way: the two tests disagree exactly when nothing
  // failed and the target asks for less than one event more than there were.
  lemma TargetAboveHundredDisagreesIff(total: nat, good: nat, target: real)
    requires total > 0 && good <= total && target > 100.0
    ensures (BudgetOf(total, good, target).status == Breached <==> Value(good, total) < target)
            <==> !(good == total && total as real * (target - 100.0) < 100.0)
  {
    var x := Allowed(total, target);
    BelowTargetCleared(total, good, target);
    ExcessCleared(total, target);
    assert (-x).Floor as real <= -x < (-x).Floor as real + 1.0;
    assert (-x).Floor == 0 <==> -x < 1.0;
  }

  lemma ProductPositive(a: real, b: real)
    requires a > 0.0 && b > 0.0
    ensures a * b > 0.0
  {
  }

  lemma BurnedOverEightTenths(budget: int, failures: int)
    requires budget > 0
    ensures failures as real / budget as real > 0.8 <==> 8 * budget < 10 * failures
  {
    var b, f := budget as real, failures as real;
    var r := f / b;
    assert r * b == f;
    Scaled(0.8, r, b);
    assert 0.8 * b < f <==> 8.0 * b < 10.0 * f;
  }

  lemma WarningIffMostIsSpent(total: nat, good: int, target: real)
    requires total > 0
    ensures var b := BudgetOf(total, good, target);
            b.status == Warning <==> b.total > 0 && 8 * b.total < 10 * (total - good) && total - good <= b.total
  {
    var b, failures := BudgetOf(total, good, target), total - good;
    if b.total > 0 {
      BurnedOverEightTenths(b.total, failures);
    }
  }

  function Rank(s: Status): nat {
    match s case Healthy => 0 case Warning => 1 case Breached => 2
  }

  // Losing events never improves the status, of the same total.
  lemma StatusIsMonotone(total: nat, good: int, fewer: int, target: real)
    requires fewer <= good
    ensures Rank(BudgetOf(total, good, target).status) <= Rank(BudgetOf(total, fewer, target).status)
  {
    if total > 0 {
      WarningIffMostIsSpent(total, good, target);
      WarningIffMostIsSpent(total, fewer, target);
    }
  }

  function Good(sli: string, a: Answers): nat
    requires a.Counted?
  {
    if sli == "availability" then a.available else if sli == "latency" then a.fast else a.total
  }

  function StatusSpec(o: Objective, a: Answers): Budget {
    if a.Unavailable? then BudgetOf(0, 0, o.target) else BudgetOf(a.total, Good(o.sli, a), o.target)
  }

  method DataPoints(days: seq<Day>) returns (points: seq<(string, real)>)
    ensures |points| == |days|
    ensures forall i :: 0 <= i < |days| ==> points[i] == (days[i].day, Value(days[i].good, days[i].total))
  {
    points := [];
    for i := 0 to |days|
      invariant |points| == i
      invariant forall k :: 0 <= k < i ==> points[k] == (days[k].day, Value(days[k].good, days[k].total))
    {
      var value := if days[i].total > 0 then days[i].good as real / days[i].total as real * 100.0 else 100.0;
      points := points + [(days[i].day, value)];
    }
  }

  method SpendBudget(totalEvents: nat, goodEvents: int, target: real) returns (budget: Budget)
    requires totalEvents > 0
    ensures budget == BudgetOf(totalEvents, goodEvents, target)
  {
    var current := goodEvents as real / totalEvents as real * 100.0;
    var allowedPercent := 100.0 - target;
    var budgetTotal := Truncate(totalEvents as real * (allowedPercent / 100.0));
    var failures := totalEvents - goodEvents;
    var remaining := budgetTotal - failures;
    var burnRate := if budgetTotal > 0 then failures as real / budgetTotal as real else 0.0;
    var status := Healthy;
    if remaining < 0 {
      status := Breached;
    } else if burnRate > 0.8 {
      status := Warning;
    }
    budget := Budget(current, budgetTotal, remaining, burnRate, status);
  }

  method CalculateStatus(o: Objective, a: Answers) returns (budget: Budget, points: seq<(string, real)>)
    ensures budget == StatusSpec(o, a)
    ensures !(a.Counted? && a.total > 0) ==> budget.status == Healthy && points == []
    ensures a.Counted? && a.total > 0 ==>
              |points| == |a.days|
              && forall i :: 0 <= i < |a.days| ==> points[i] == (a.days[i].day, Value(a.days[i].good, a.days[i].total))
  {
    if a.Unavailable? || a.total == 0 {
      return Budget(100.0, 0, 0, 0.0, Healthy), [];
    }
    var goodEvents: nat := a.total;
    if o.sli == "availability" {
      goodEvents := a.available;
    } else if o.sli == "latency" {
      goodEvents := a.fast;
    }
    budget := SpendBudget(a.total, goodEvents, o.target);
    points := DataPoints(a.days);
  }

  // ---------------------------------------------------------------- the evaluator's incidents

  // `actual` is what the summary reports.
  datatype Incident = Incident(
    id: nat,
    tenant: Option<int>,
    domain: string,
    title: string,
    open: bool,
    created: real,
    actual: real,
    predictive: bool)

  datatype World = World(table: seq<Incident>, nextId: nat)

  function BreachTitle(name: string): string {
    "SLO Breach: " + name
  }

  function ForecastTitle(name: string): string {
    "Predictive Warning: " + name + " will breach soon"
  }

  // What the evaluator looks up before opening an incident.
  datatype Key =
    | BreachKey(tenant: Option<int>, service: string, name: string)
    | ForecastKey(tenant: Option<int>, name: string)

  predicate Matches(i: Incident, k: Key) {
    i.open
    && match k
       case BreachKey(tenant, service, name) =>
         i.tenant == tenant && i.domain == service && i.title == BreachTitle(name)
       case ForecastKey(tenant, name) => i.tenant == tenant && i.title == ForecastTitle(name)
  }

  // The latest open incident of a key, if any.
  function Latest(table: seq<Incident>, k: Key): (found: Option<nat>)
    ensures found.Some? ==> found.value < |table| && Matches(table[found.value], k)
    ensures found.None? ==> forall i <- table :: !Matches(i, k)
  {
    if table == [] then None
    else
      var n := |table| - 1;
      var before := Latest(table[..n], k);
      if Matches(table[n], k) && (before.None? || table[before.value].created < table[n].created)
      then Some(n) else before
  }

  // One evaluation of one objective: skipped by an exception, or sampled counts and whether the
  // forecast dips below the target.
  datatype Sample = Skipped | Sampled(good: int, total: nat, forecast: bool)

  function Open(w: World, o: Objective, title: string, actual: real, now: real, predictive: bool): World {
    World(w.table + [Incident(w.nextId, o.tenant, o.service, title, true, now, actual, predictive)], w.nextId + 1)
  }

  function Evaluate(w: World, o: Objective, s: Sample, now: real): World {
    if s.Skipped? then w
    else
      var value := Value(s.good, s.total);
      if value < o.target then
        match Latest(w.table, BreachKey(o.tenant, o.service, o.name))
        case Some(i) => w.(table := w.table[i := w.table[i].(actual := value)])
        case None => Open(w, o, BreachTitle(o.name), value, now, false)
      else if s.forecast && Latest(w.table, ForecastKey(o.tenant, o.name)).None? then
        Open(w, o, ForecastTitle(o.name), value, now, true)
      else w
  }

  datatype Step =
    | Tick(objective: Objective, sample: Sample, now: real)
    | Resolve(id: nat)
    | Delete(id: nat)
    | Reopen(id: nat)

  function SetOpen(table: seq<Incident>, id: nat, open: bool): seq<Incident> {
    if table == [] then []
    else
      var last := table[|table| - 1];
      SetOpen(table[..|table| - 1], id, open) + [if last.id == id then last.(open := open) else last]
  }

  function Remove(table: seq<Incident>, id: nat): seq<Incident> {
    if table == [] then []
    else
      var last := table[|table| - 1];
      Remove(table[..|table| - 1], id) + if last.id == id then [] else [last]
  }

  function Next(w: World, s: Step): World {
    match s
    case Tick(o, sample, now) => Evaluate(w, o, sample, now)
    case Resolve(id) => w.(table := SetOpen(w.table, id, false))
    case Delete(id) => w.(table := Remove(w.table, id))
    case Reopen(id) => w.(table := SetOpen(w.table, id, true))
  }

  function Run(w: World, steps: seq<Step>): World {
    if steps == [] then w else Next(Run(w, steps[..|steps| - 1]), steps[|steps| - 1])
  }

  // ---------------------------------------------------------------- at most one open incident

  function OpenCount(table: seq<Incident>, k: Key): nat {
    if table == [] then 0
    else OpenCount(table[..|table| - 1], k) + if Matches(table[|table| - 1], k) then 1 else 0
  }

  ghost predicate AtMostOneOpen(table: seq<Incident>) {
    forall k: Key :: OpenCount(table, k) <= 1
  }

  lemma TitlesDiffer(a: string, b: string)
    ensures BreachTitle(a) != ForecastTitle(b)
    ensures BreachTitle(a) == BreachTitle(b) <==> a == b
    ensures ForecastTitle(a) == ForecastTitle(b) <==> a == b
  {
    assert BreachTitle(a)[0] == 'S' && ForecastTitle(b)[0] == 'P';
    assert BreachTitle(a)[12..] == a && BreachTitle(b)[12..] == b;
    assert ForecastTitle(a)[20..|ForecastTitle(a)| - 17] == a && ForecastTitle(b)[20..|ForecastTitle(b)| - 17] == b;
  }

  lemma CountSnoc(table: seq<Incident>, i: Incident, k: Key)
    ensures OpenCount(table + [i], k) == OpenCount(table, k) + if Matches(i, k) then 1 else 0
  {
    assert (table + [i])[..|table|] == table;
  }

  lemma {:induction false} CountUpdate(table: seq<Incident>, n: nat, i: Incident, k: Key)
    requires n < |table| && Matches(i, k) == Matches(table[n], k)
    ensures OpenCount(table[n := i], k) == OpenCount(table, k)
  {
    var last := |table| - 1;
    if n < last {
      CountUpdate(table[..last], n, i, k);
      assert table[n := i][..last] == table[..last][n := i];
    } else {
      assert table[n := i][..last] == table[..last];
    }
  }

  lemma {:induction false} CountIsZeroIff(table: seq<Incident>, k: Key)
    ensures OpenCount(table, k) == 0 <==> forall i <- table :: !Matches(i, k)
  {
    if table != [] {
      CountIsZeroIff(table[..|table| - 1], k);
      assert forall i :: i in table <==> i in table[..|table| - 1] || i == table[|table| - 1];
    }
  }

  lemma {:induction false} ClosingCounts(table: seq<Incident>, id: nat, k: Key)
    ensures OpenCount(SetOpen(table, id, false), k) <= OpenCount(table, k)
    ensures OpenCount(Remove(table, id), k) <= OpenCount(table, k)
  {
    if table != [] {
      var init, last := table[..|table| - 1], table[|table| - 1];
      ClosingCounts(init, id, k);
      CountSnoc(SetOpen(init, id, false), if last.id == id then last.(open := false) else last, k);
      CountSnoc(Remove(init, id), last, k);
      assert Remove(init, id) + [] == Remove(init, id);
    }
  }

  // An incident opened only when its key has none open keeps every key to one.
  lemma OpeningCounts(w: World, o: Objective, k: Key, actual: real, now: real, other: Key)
    requires k == BreachKey(o.tenant, o.service, o.name) || k == ForecastKey(o.tenant, o.name)
    requires Latest(w.table, k).None? && OpenCount(w.table, other) <= 1
    ensures var title := if k.BreachKey? then BreachTitle(o.name) else ForecastTitle(o.name);
            OpenCount(Open(w, o, title, actual, now, k.ForecastKey?).table, other) <= 1
  {
    var title := if k.BreachKey? then BreachTitle(o.name) else ForecastTitle(o.name);
    var i := Incident(w.nextId, o.tenant, o.service, title, true, now, actual, k.ForecastKey?);
    CountSnoc(w.table, i, other);
    TitlesDiffer(o.name, other.name);
    TitlesDiffer(other.name, o.name);
    if Matches(i, other) {
      assert other == k;
      CountIsZeroIff(w.table, k);
    }
  }

  lemma EvaluationKeepsOneOpen(w: World, o: Objective, s: Sample, now: real)
    requires AtMostOneOpen(w.table)
    ensures AtMostOneOpen(Evaluate(w, o, s, now).table)
  {
    var breach, forecast := BreachKey(o.tenant, o.service, o.name), ForecastKey(o.tenant, o.name);
    if s.Sampled? {
      var value := Value(s.good, s.total);
      forall k: Key ensures OpenCount(Evaluate(w, o, s, now).table, k) <= 1 {
        assert OpenCount(w.table, k) <= 1;
        if value < o.target {
          match Latest(w.table, breach)
          case Some(i) => CountUpdate(w.table, i, w.table[i].(actual := value), k);
          case None => OpeningCounts(w, o, breach, value, now, k);
        } else if s.forecast && Latest(w.table, forecast).None? {
          OpeningCounts(w, o, forecast, value, now, k);
        }
      }
    }
  }

  // UNIQUENESS: over any run of evaluations, resolves and deletes, each tenant, service and
  // objective name has at most one open breach incident, and each tenant and name one forecast.
  lemma {:induction false} RunsKeepOneOpen(w: World, steps: seq<Step>)
    requires AtMostOneOpen(w.table) && forall s <- steps :: !s.Reopen?
    ensures AtMostOneOpen(Run(w, steps).table)
  {
    if steps != [] {
      var init, s := steps[..|steps| - 1], steps[|steps| - 1];
      RunsKeepOneOpen(w, init);
      var w1 := Run(w, init);
      match s
      case Tick(o, sample, now) => EvaluationKeepsOneOpen(w1, o, sample, now);
      case Resolve(id) =>
        forall k: Key ensures OpenCount(Run(w, steps).table, k) <= 1 { ClosingCounts(w1.table, id, k); }
      case Delete(id) =>
        forall k: Key ensures OpenCount(Run(w, steps).table, k) <= 1 { ClosingCounts(w1.table, id, k); }
      case Reopen(id) =>
    }
  }

  // A breach leaves exactly one open incident for its objective, showing the latest value.
  lemma BreachIsReported(w: World, o: Objective, s: Sample, now: real)
    requires AtMostOneOpen(w.table) && s.Sampled? && Value(s.good, s.total) < o.target
    ensures var k, w' := BreachKey(o.tenant, o.service, o.name), Evaluate(w, o, s, now);
            && OpenCount(w'.table, k) == 1
            && forall i <- w'.table :: Matches(i, k) ==> i.actual == Value(s.good, s.total)
  {
    var k, w' := BreachKey(o.tenant, o.service, o.name), Evaluate(w, o, s, now);
    EvaluationKeepsOneOpen(w, o, s, now);
    assert OpenCount(w'.table, k) <= 1;
    var n := if Latest(w.table, k).Some? then Latest(w.table, k).value else |w.table|;
    assert Matches(w'.table[n], k) && w'.table[n].actual == Value(s.good, s.total);
    CountIsZeroIff(w'.table, k);
    forall i | i in w'.table && Matches(i, k) ensures i.actual == Value(s.good, s.total) {
      var m :| 0 <= m < |w'.table| && w'.table[m] == i;
      if m != n {
        TwoOpen(w'.table, if m < n then m else n, if m < n then n else m, k);
        assert false;
      }
    }
  }

  // Without a breach, a forecast of one leaves exactly one open warning and touches nothing else;
  // without either, nothing changes.
  lemma ForecastIsReported(w: World, o: Objective, s: Sample, now: real)
    requires AtMostOneOpen(w.table) && s.Sampled? && Value(s.good, s.total) >= o.target
    ensures var w' := Evaluate(w, o, s, now);
            && w.table <= w'.table
            && (s.forecast ==> OpenCount(w'.table, ForecastKey(o.tenant, o.name)) == 1)
            && (!s.forecast ==> w' == w)
  {
    var k, w' := ForecastKey(o.tenant, o.name), Evaluate(w, o, s, now);
    EvaluationKeepsOneOpen(w, o, s, now);
    assert OpenCount(w'.table, k) <= 1;
    if s.forecast {
      var n := if Latest(w.table, k).Some? then Latest(w.table, k).value else |w.table|;
      assert Matches(w'.table[n], k);
      CountIsZeroIff(w'.table, k);
    }
  }

  lemma {:induction false} TwoOpen(table: seq<Incident>, m: nat, n: nat, k: Key)
    requires m < n < |table| && Matches(table[m], k) && Matches(table[n], k)
    ensures OpenCount(table, k) >= 2
  {
    var last := |table| - 1;
    if n < last {
      TwoOpen(table[..last], m, n, k);
    } else {
      CountIsZeroIff(table[..last], k);
      assert table[m] in table[..last];
    }
  }

  // ---------------------------------------------------------------- when an incident was opened

  ghost predicate SameOrigin(i: Incident, j: Incident) {
    && i.id == j.id && i.created == j.created && i.tenant == j.tenant
    && i.domain == j.domain && i.title == j.title && i.predictive == j.predictive
  }

  // Every incident of `table'` is new or was in `table` with the same origin.
  ghost predicate Descends(w: World, w': World) {
    && w.nextId <= w'.nextId
    && forall j <- w'.table :: j.id >= w.nextId || Origin(w.table, j)
  }

  ghost predicate Origin(table: seq<Incident>, j: Incident) {
    exists i :: i in table && SameOrigin(i, j)
  }

  // An evaluation changes no incident but the summary of the one it refreshes.
  lemma RefreshOnlyRewritesTheSummary(w: World, o: Objective, s: Sample, now: real)
    ensures var w' := Evaluate(w, o, s, now);
            && |w.table| <= |w'.table| <= |w.table| + 1
            && forall n :: 0 <= n < |w.table| ==> w'.table[n] == w.table[n].(actual := w'.table[n].actual)
  {
  }

  lemma {:induction false} SetOpenOrigins(table: seq<Incident>, id: nat, open: bool)
    ensures forall j <- SetOpen(table, id, open) :: Origin(table, j)
    ensures forall j <- Remove(table, id) :: Origin(table, j)
  {
    if table != [] {
      var init, last := table[..|table| - 1], table[|table| - 1];
      SetOpenOrigins(init, id, open);
      forall j | Origin(init, j) || SameOrigin(last, j) ensures Origin(table, j) {
        if Origin(init, j) {
          var i :| i in init && SameOrigin(i, j);
          assert i in table;
        } else {
          assert last in table;
        }
      }
    }
  }

  lemma StepDescends(w: World, s: Step)
    ensures Descends(w, Next(w, s))
  {
    match s
    case Tick(o, sample, now) =>
      RefreshOnlyRewritesTheSummary(w, o, sample, now);
      var w' := Next(w, s);
      forall j | j in w'.table ensures j.id >= w.nextId || Origin(w.table, j) {
        var n :| 0 <= n < |w'.table| && w'.table[n] == j;
        if n < |w.table| {
          assert w.table[n] in w.table && SameOrigin(w.table[n], j);
        }
      }
    case Resolve(id) => SetOpenOrigins(w.table, id, false);
    case Delete(id) => SetOpenOrigins(w.table, id, false);
    case Reopen(id) => SetOpenOrigins(w.table, id, true);
  }

  // CREATION TIMES: whatever happens later, an incident keeps the moment it was first opened.
  lemma {:induction false} RunsDescend(w: World, steps: seq<Step>)
    ensures Descends(w, Run(w, steps))
  {
    if steps == [] {
      forall j | j in w.table ensures Origin(w.table, j) { assert SameOrigin(j, j); }
    } else {
      var w1, w2 := Run(w, steps[..|steps| - 1]), Run(w, steps);
      RunsDescend(w, steps[..|steps| - 1]);
      StepDescends(w1, steps[|steps| - 1]);
      forall j | j in w2.table ensures j.id >= w.nextId || Origin(w.table, j) {
        if j.id < w.nextId {
          var i :| i in w1.table && SameOrigin(i, j);
          assert Origin(w.table, i);
          var h :| h in w.table && SameOrigin(h, i);
          assert SameOrigin(h, j);
        }
      }
    }
  }

  // ---------------------------------------------------------------- reopening

  ghost predicate DistinctIds(table: seq<Incident>) {
    forall m, n :: 0 <= m < n < |table| ==> table[m].id != table[n].id
  }

  lemma {:induction false} ReopenCounts(table: seq<Incident>, n: nat, k: Key)
    requires n < |table| && DistinctIds(table) && !table[n].open && Matches(table[n].(open := true), k)
    ensures OpenCount(SetOpen(table, table[n].id, true), k) == OpenCount(table, k) + 1
  {
    var init, last, id := table[..|table| - 1], table[|table| - 1], table[n].id;
    if n < |table| - 1 {
      ReopenCounts(init, n, k);
      CountSnoc(SetOpen(init, id, true), last, k);
    } else {
      SetOpenMisses(init, id);
      CountSnoc(init, last.(open := true), k);
    }
  }

  lemma {:induction false} SetOpenMisses(table: seq<Incident>, id: nat)
    requires forall i <- table :: i.id != id
    ensures SetOpen(table, id, true) == table
  {
    if table != [] {
      SetOpenMisses(table[..|table| - 1], id);
    }
  }

  // Reopening a closed incident keeps its objective to one open incident exactly when none of it
  // is open at the time.
  lemma ReopenKeepsOneIff(table: seq<Incident>, n: nat, k: Key)
    requires n < |table| && DistinctIds(table) && AtMostOneOpen(table)
    requires !table[n].open && Matches(table[n].(open := true), k)
    ensures OpenCount(SetOpen(table, table[n].id, true), k) <= 1 <==> Latest(table, k).None?
  {
    ReopenCounts(table, n, k);
    CountIsZeroIff(table, k);
    assert OpenCount(table, k) <= 1;
    if Latest(table, k).Some? {
      assert table[Latest(table, k).value] in table;
    }
  }

  // ---------------------------------------------------------------- the periodic task

  function EvaluateAll(w: World, os: seq<Objective>, samples: seq<Sample>, now: real): World
    requires |os| == |samples|
  {
    if os == [] then w
    else
      var n := |os| - 1;
      Evaluate(EvaluateAll(w, os[..n], samples[..n], now), os[n], samples[n], now)
  }

  class Evaluator {
    var table: seq<Incident>
    var nextId: nat

    ghost function State(): World
      reads this
    {
      World(table, nextId)
    }

    constructor ()
      ensures State() == World([], 0)
    {
      table, nextId := [], 0;
    }

    method AddIncident(o: Objective, title: string, actual: real, now: real, predictive: bool)
      modifies this
      ensures State() == Open(old(State()), o, title, actual, now, predictive)
    {
      table := table + [Incident(nextId, o.tenant, o.service, title, true, now, actual, predictive)];
      nextId := nextId + 1;
    }

    method EvaluateOne(o: Objective, s: Sample, now: real)
      modifies this
      ensures State() == Evaluate(old(State()), o, s, now)
    {
      if s.Skipped? {
        return;
      }
      var value := if s.total > 0 then s.good as real / s.total as real * 100.0 else 100.0;
      if value < o.target {
        var existing := Latest(table, BreachKey(o.tenant, o.service, o.name));
        if existing.Some? {
          table := table[existing.value := table[existing.value].(actual := value)];
        } else {
          AddIncident(o, BreachTitle(o.name), value, now, false);
        }
      } else if s.forecast {
        var recent := Latest(table, ForecastKey(o.tenant, o.name));
        if recent.None? {
          AddIncident(o, ForecastTitle(o.name), value, now, true);
        }
      }
    }

    method EvaluateSlos(os: seq<Objective>, samples: seq<Sample>, now: real)
      requires |os| == |samples|
      modifies this
      ensures State() == EvaluateAll(old(State()), os, samples, now)
      ensures AtMostOneOpen(old(table)) ==> AtMostOneOpen(table)
    {
      for i := 0 to |os|
        invariant State() == EvaluateAll(old(State()), os[..i], samples[..i], now)
        invariant AtMostOneOpen(old(table)) ==> AtMostOneOpen(table)
      {
        assert os[..i + 1][..i] == os[..i] && samples[..i + 1][..i] == samples[..i];
        if AtMostOneOpen(table) {
          EvaluationKeepsOneOpen(State(), os[i], samples[i], now);
        }
        EvaluateOne(os[i], samples[i], now);
      }
      assert os[..|os|] == os && samples[..|os|] == samples;
    }
  }
}
