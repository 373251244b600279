/**
  The causal scorer: a sliding window over the sorted timeline collects signed delays for every
  pair of clusters, from which directed links are inferred.

  Times are integer milliseconds; scores are reals before the final rounding; `exp` and `log` are
  parameters of which only signs and ranges are assumed.
*/
module CausalScorer {
  import opened Options
  import opened Reals
  import Sequences
  import Sorting

  datatype Event = Event(time: int, cluster: int, service: string)

  // A cluster pair key of `interactions`, smaller id first.
  datatype Pair = Pair(first: int, second: int)

  // ---------------------------------------------------------------- the quadratic definition

  predicate Near(a: Event, b: Event, window: real) {
    -window <= (b.time - a.time) as real <= window
  }

  // What the ordered pair of events (a, b) adds for clusters p.first and p.second.
  function Delay(a: Event, b: Event, p: Pair, window: real): multiset<int> {
    if a.cluster == p.first && b.cluster == p.second && a.service != b.service && Near(a, b, window)
    then multiset{b.time - a.time} else multiset{}
  }

  function Sum(es: seq<Event>, f: Event -> multiset<int>): multiset<int> {
    if es == [] then multiset{} else f(es[0]) + Sum(es[1..], f)
  }

  function From(a: Event, p: Pair, window: real): Event -> multiset<int> {
    b => Delay(a, b, p, window)
  }

  function To(b: Event, p: Pair, window: real): Event -> multiset<int> {
    a => Delay(a, b, p, window)
  }

  function Rows(es: seq<Event>, p: Pair, window: real): Event -> multiset<int> {
    a => Sum(es, From(a, p, window))
  }

  // Every event pair of two services, one event in each cluster, no further apart than the window.
  function AllDelays(es: seq<Event>, p: Pair, window: real): multiset<int> {
    Sum(es, Rows(es, p, window))
  }

  lemma {:induction false} SumEqual(es: seq<Event>, f: Event -> multiset<int>, g: Event -> multiset<int>)
    requires forall e <- es :: f(e) == g(e)
    ensures Sum(es, f) == Sum(es, g)
  {
    if es != [] {
      assert es[0] in es;
      SumEqual(es[1..], f, g);
    }
  }

  lemma {:induction false} SumConcat(a: seq<Event>, b: seq<Event>, f: Event -> multiset<int>)
    ensures Sum(a + b, f) == Sum(a, f) + Sum(b, f)
  {
    if a == [] {
      assert a + b == b;
    } else {
      SumConcat(a[1..], b, f);
      assert (a + b)[1..] == a[1..] + b;
    }
  }

  lemma SumCons(x: Event, es: seq<Event>, f: Event -> multiset<int>)
    ensures Sum([x] + es, f) == f(x) + Sum(es, f)
  {
    assert ([x] + es)[1..] == es;
  }

  lemma SumWithout(t: seq<Event>, k: nat, f: Event -> multiset<int>)
    requires k < |t|
    ensures Sum(t, f) == f(t[k]) + Sum(t[..k] + t[k + 1..], f)
  {
    var before, x, after := t[..k], t[k], t[k + 1..];
    Sequences.SplitAround(t, k);
    SumConcat(before, [x] + after, f);
    SumCons(x, after, f);
    SumConcat(before, after, f);
  }

  lemma WithoutOne<T>(s: seq<T>, t: seq<T>) returns (k: nat)
    requires s != [] && multiset(s) == multiset(t)
    ensures k < |t| && t[k] == s[0] && multiset(s[1..]) == multiset(t[..k] + t[k + 1..])
  {
    assert s[0] in multiset(t);
    k :| 0 <= k < |t| && t[k] == s[0];
    Sequences.MultisetWithout(t, k);
    Sequences.MultisetOfFirst(s);
  }

  lemma {:induction false} SumPermutes(s: seq<Event>, t: seq<Event>, f: Event -> multiset<int>)
    requires multiset(s) == multiset(t)
    ensures Sum(s, f) == Sum(t, f)
    decreases s
  {
    assert |s| == |multiset(s)| == |t|;
    if s != [] {
      var k := WithoutOne(s, t);
      SumPermutes(s[1..], t[..k] + t[k + 1..], f);
      SumWithout(t, k, f);
    }
  }

  // The delays of a pair do not depend on the order of the events.
  lemma AllDelaysPermute(s: seq<Event>, t: seq<Event>, p: Pair, window: real)
    requires multiset(s) == multiset(t)
    ensures AllDelays(s, p, window) == AllDelays(t, p, window)
  {
    SumPermutes(s, t, Rows(s, p, window));
    forall a | a in t ensures Rows(s, p, window)(a) == Rows(t, p, window)(a) {
      SumPermutes(s, t, From(a, p, window));
    }
    SumEqual(t, Rows(s, p, window), Rows(t, p, window));
  }

  // ---------------------------------------------------------------- each unordered pair once

  // What event `a` adds together with each of the later events `rest`, in either role.
  function Ahead(a: Event, rest: seq<Event>, p: Pair, window: real): multiset<int> {
    Sum(rest, From(a, p, window)) + Sum(rest, To(a, p, window))
  }

  function Forward(es: seq<Event>, p: Pair, window: real): multiset<int> {
    if es == [] then multiset{} else Ahead(es[0], es[1..], p, window) + Forward(es[1..], p, window)
  }

  lemma {:induction false} RowsCons(bs: seq<Event>, a: Event, rest: seq<Event>, p: Pair, window: real)
    ensures Sum(bs, Rows([a] + rest, p, window)) == Sum(bs, To(a, p, window)) + Sum(bs, Rows(rest, p, window))
  {
    if bs != [] {
      RowsCons(bs[1..], a, rest, p, window);
      assert ([a] + rest)[1..] == rest;
      assert Rows([a] + rest, p, window)(bs[0]) == Delay(bs[0], a, p, window) + Sum(rest, From(bs[0], p, window));
    }
  }

  lemma {:induction false} ForwardIsAllDelays(es: seq<Event>, p: Pair, window: real)
    requires p.first != p.second
    ensures Forward(es, p, window) == AllDelays(es, p, window)
  {
    if es != [] {
      var a, rest := es[0], es[1..];
      assert es == [a] + rest;
      ForwardIsAllDelays(rest, p, window);
      RowsCons(rest, a, rest, p, window);
      assert Delay(a, a, p, window) == multiset{};
      assert Rows(es, p, window)(a) == Delay(a, a, p, window) + Sum(rest, From(a, p, window));
    }
  }

  predicate Sorted(es: seq<Event>) {
    forall i, j :: 0 <= i <= j < |es| ==> es[i].time <= es[j].time
  }

  // Past the first event beyond the window nothing more is added.
  lemma {:induction false} NothingBeyondTheWindow(a: Event, rest: seq<Event>, p: Pair, window: real)
    requires forall b <- rest :: (b.time - a.time) as real > window && b.time >= a.time
    ensures Ahead(a, rest, p, window) == multiset{}
  {
    if rest != [] {
      assert rest[0] in rest;
      NothingBeyondTheWindow(a, rest[1..], p, window);
    }
  }

  // ---------------------------------------------------------------- the sliding window

  // The `interactions` dictionary and its keys in order of insertion.
  datatype Collected = Collected(delays: map<Pair, seq<int>>, order: seq<Pair>)
  {
    function Of(p: Pair): seq<int> {
      if p in delays then delays[p] else []
    }

    ghost predicate WellKeyed() {
      && (forall p: Pair :: p in delays <==> p in order)
      && (forall i, j :: 0 <= i < j < |order| ==> order[i] != order[j])
      && (forall p <- delays :: p.first < p.second && delays[p] != [])
    }
  }

  function PairOf(a: Event, b: Event): Pair {
    if a.cluster < b.cluster then Pair(a.cluster, b.cluster) else Pair(b.cluster, a.cluster)
  }

  function SignedDelay(a: Event, b: Event): int {
    if a.cluster < b.cluster then b.time - a.time else a.time - b.time
  }

  // One event pair of the inner loop.
  function Record(c: Collected, a: Event, b: Event): Collected {
    if a.cluster == b.cluster || a.service == b.service then c
    else
      var p := PairOf(a, b);
      Collected(c.delays[p := c.Of(p) + [SignedDelay(a, b)]], if p in c.delays then c.order else c.order + [p])
  }

  function Slide(c: Collected, a: Event, rest: seq<Event>, window: real): Collected
    decreases rest
  {
    if rest == [] || (rest[0].time - a.time) as real > window then c
    else Slide(Record(c, a, rest[0]), a, rest[1..], window)
  }

  function Search(c: Collected, es: seq<Event>, window: real): Collected
    decreases es
  {
    if es == [] then c else Search(Slide(c, es[0], es[1..], window), es[1..], window)
  }

  lemma RecordKeepsKeys(c: Collected, a: Event, b: Event)
    requires c.WellKeyed()
    ensures Record(c, a, b).WellKeyed()
  {
  }

  lemma {:induction false} SlideKeepsKeys(c: Collected, a: Event, rest: seq<Event>, window: real)
    requires c.WellKeyed()
    ensures Slide(c, a, rest, window).WellKeyed()
    decreases rest
  {
    if rest != [] && (rest[0].time - a.time) as real <= window {
      RecordKeepsKeys(c, a, rest[0]);
      SlideKeepsKeys(Record(c, a, rest[0]), a, rest[1..], window);
    }
  }

  lemma {:induction false} SearchKeepsKeys(c: Collected, es: seq<Event>, window: real)
    requires c.WellKeyed()
    ensures Search(c, es, window).WellKeyed()
    decreases es
  {
    if es != [] {
      SlideKeepsKeys(c, es[0], es[1..], window);
      SearchKeepsKeys(Slide(c, es[0], es[1..], window), es[1..], window);
    }
  }

  lemma RecordAddsTheDelay(c: Collected, a: Event, b: Event, p: Pair, window: real)
    requires p.first < p.second && a.time <= b.time && (b.time - a.time) as real <= window
    ensures multiset(Record(c, a, b).Of(p)) == multiset(c.Of(p)) + (Delay(a, b, p, window) + Delay(b, a, p, window))
  {
    if a.cluster != b.cluster && a.service != b.service && p == PairOf(a, b) {
      assert Delay(a, b, p, window) + Delay(b, a, p, window) == multiset{SignedDelay(a, b)};
    }
  }

  lemma AheadUnfolds(a: Event, rest: seq<Event>, p: Pair, window: real)
    requires rest != []
    ensures Ahead(a, rest, p, window)
         == (Delay(a, rest[0], p, window) + Delay(rest[0], a, p, window)) + Ahead(a, rest[1..], p, window)
  {
    assert Sum(rest, From(a, p, window)) == Delay(a, rest[0], p, window) + Sum(rest[1..], From(a, p, window));
    assert Sum(rest, To(a, p, window)) == Delay(rest[0], a, p, window) + Sum(rest[1..], To(a, p, window));
  }

  // What the inner loop still has to see, in timeline order.
  ghost predicate Follows(a: Event, rest: seq<Event>) {
    Sorted(rest) && (rest != [] ==> a.time <= rest[0].time)
  }

  lemma FollowsOn(a: Event, rest: seq<Event>)
    requires Follows(a, rest) && rest != []
    ensures Follows(a, rest[1..]) && Follows(rest[0], rest[1..])
  {
  }

  lemma BeyondStaysBeyond(a: Event, rest: seq<Event>, p: Pair, window: real)
    requires Follows(a, rest) && rest != [] && (rest[0].time - a.time) as real > window
    ensures Ahead(a, rest, p, window) == multiset{}
  {
    forall b | b in rest ensures (b.time - a.time) as real > window && b.time >= a.time {
      var k :| 0 <= k < |rest| && rest[k] == b;
      assert rest[0].time <= rest[k].time;
    }
    NothingBeyondTheWindow(a, rest, p, window);
  }

  lemma {:induction false} SlideAddsWhatIsAhead(c: Collected, a: Event, rest: seq<Event>, p: Pair, window: real)
    requires p.first < p.second && Follows(a, rest)
    ensures multiset(Slide(c, a, rest, window).Of(p)) == multiset(c.Of(p)) + Ahead(a, rest, p, window)
    decreases rest
  {
    if rest == [] {
    } else if (rest[0].time - a.time) as real > window {
      BeyondStaysBeyond(a, rest, p, window);
    } else {
      FollowsOn(a, rest);
      RecordAddsTheDelay(c, a, rest[0], p, window);
      SlideAddsWhatIsAhead(Record(c, a, rest[0]), a, rest[1..], p, window);
      AheadUnfolds(a, rest, p, window);
    }
  }

  lemma {:induction false} SearchMovesForward(c: Collected, es: seq<Event>, p: Pair, window: real)
    requires p.first < p.second && Sorted(es)
    ensures multiset(Search(c, es, window).Of(p)) == multiset(c.Of(p)) + Forward(es, p, window)
    decreases es
  {
    if es != [] {
      assert Follows(es[0], es[1..]);
      SlideAddsWhatIsAhead(c, es[0], es[1..], p, window);
      SearchMovesForward(Slide(c, es[0], es[1..], window), es[1..], p, window);
    }
  }

  // The sorted, early-breaking search finds exactly the delays of the quadratic definition.
  lemma SearchFindsAllDelays(es: seq<Event>, p: Pair, window: real)
    requires p.first < p.second && Sorted(es)
    ensures multiset(Search(NOTHING, es, window).Of(p)) == AllDelays(es, p, window)
  {
    SearchMovesForward(NOTHING, es, p, window);
    ForwardIsAllDelays(es, p, window);
  }

  const NOTHING := Collected(map[], [])

  method RecordPair(c: Collected, a: Event, b: Event) returns (c': Collected)
    ensures c' == Record(c, a, b)
  {
    c' := c;
    if a.cluster != b.cluster && a.service != b.service {
      var delay := b.time - a.time;
      var pair := if a.cluster < b.cluster then Pair(a.cluster, b.cluster) else Pair(b.cluster, a.cluster);
      var signed := if a.cluster < b.cluster then delay else -delay;
      if pair !in c'.delays {
        c' := Collected(c'.delays[pair := []], c'.order + [pair]);
      }
      c' := c'.(delays := c'.delays[pair := c'.delays[pair] + [signed]]);
    }
  }

  // The inner loop: forward from event i until the window closes.
  method SlideFrom(timeline: seq<Event>, i: nat, window: real, c0: Collected) returns (c: Collected)
    requires i < |timeline|
    ensures c == Slide(c0, timeline[i], timeline[i + 1..], window)
  {
    c := c0;
    var j := i + 1;
    while j < |timeline|
      invariant i < j <= |timeline|
      invariant Slide(c, timeline[i], timeline[j..], window) == Slide(c0, timeline[i], timeline[i + 1..], window)
    {
      assert timeline[j..][0] == timeline[j] && timeline[j..][1..] == timeline[j + 1..];
      if (timeline[j].time - timeline[i].time) as real > window {
        return;  // out of the window
      }
      c := RecordPair(c, timeline[i], timeline[j]);
      j := j + 1;
    }
  }

  // The double loop of `analyze` over the sorted timeline.
  method WindowSearch(timeline: seq<Event>, window: real) returns (c: Collected)
    requires Sorted(timeline)
    ensures c == Search(NOTHING, timeline, window) && c.WellKeyed()
    ensures forall p: Pair | p.first < p.second :: multiset(c.Of(p)) == AllDelays(timeline, p, window)
  {
    c := NOTHING;
    for i := 0 to |timeline|
      invariant Search(c, timeline[i..], window) == Search(NOTHING, timeline, window)
    {
      assert timeline[i..][0] == timeline[i] && timeline[i..][1..] == timeline[i + 1..];
      c := SlideFrom(timeline, i, window, c);
    }
    SearchKeepsKeys(NOTHING, timeline, window);
    forall p: Pair | p.first < p.second ensures multiset(c.Of(p)) == AllDelays(timeline, p, window) {
      SearchFindsAllDelays(timeline, p, window);
    }
  }

  // ---------------------------------------------------------------- link inference

  // How many delays of each sign a pair has, and what the signed ones sum to.
  datatype Stats = Stats(pos: nat, posSum: int, neg: nat, negSum: int, zero: nat)
  {
    function Plus(d: int): Stats {
      if d > 0 then this.(pos := pos + 1, posSum := posSum + d)
      else if d < 0 then this.(neg := neg + 1, negSum := negSum + d)
      else this.(zero := zero + 1)
    }
  }

  function StatsOf(delays: seq<int>): Stats {
    if delays == [] then Stats(0, 0, 0, 0, 0)
    else StatsOf(delays[..|delays| - 1]).Plus(delays[|delays| - 1])
  }

  // The scoring functions of the standard library, and the decay rate.
  datatype Scoring = Scoring(exp: real -> real, log: real -> real, decay: real)

  ghost predicate Sane(s: Scoring) {
    && s.decay >= 0.0
    && (forall x: real :: s.exp(x) > 0.0)
    && (forall x: real :: x <= 0.0 ==> s.exp(x) <= 1.0)
    && (forall x: real :: x > 1.0 ==> s.log(x) > 0.0)
  }

  // A link before rounding and before service names are looked up.
  datatype Link = Link(source: int, target: int, confidence: real, avgDelay: real, occurrences: nat, dominance: real)

  function Min(a: real, b: real): real { if a < b then a else b }

  function Proximity(s: Scoring, avg: real): real { s.exp(-s.decay * avg) }

  function Confidence(s: Scoring, avg: real, occurrences: nat, dominance: real): real
    requires s.log(10.0) != 0.0
  {
    Proximity(s, avg) * 0.4 + Min(1.0, s.log((occurrences + 1) as real) / s.log(10.0)) * 0.4 + dominance * 0.2
  }

  function MakeLink(s: Scoring, source: int, target: int, total: int, directional: nat, occurrences: nat): Link
    requires directional > 0 && occurrences > 0 && s.log(10.0) != 0.0
  {
    var avg := total as real / directional as real;
    var dominance := directional as real / occurrences as real;
    Link(source, target, Confidence(s, avg, occurrences, dominance), avg, occurrences, dominance)
  }

  predicate Forwards(t: Stats) {
    t.pos as real + t.zero as real / 2.0 >= t.neg as real + t.zero as real / 2.0
  }

  lemma LeadIsMajority(t: Stats)
    ensures Forwards(t) <==> t.pos >= t.neg
  {
  }

  // Zero delays count half for each direction when they vote, and wholly for the winner.
  function InferFrom(p: Pair, n: nat, t: Stats, s: Scoring): Option<Link>
    requires s.log(10.0) != 0.0
  {
    if n < 2 then None
    else
      var directional := (if Forwards(t) then t.pos else t.neg) + t.zero;
      if directional == 0 then None
      else if Forwards(t) then Some(MakeLink(s, p.first, p.second, t.posSum, directional, n))
      else Some(MakeLink(s, p.second, p.first, -t.negSum, directional, n))
  }

  function InferLink(p: Pair, delays: seq<int>, s: Scoring): Option<Link>
    requires s.log(10.0) != 0.0
  {
    InferFrom(p, |delays|, StatsOf(delays), s)
  }

  ghost predicate Within(delays: seq<int>, window: real) {
    forall i :: 0 <= i < |delays| ==> -window <= delays[i] as real <= window
  }

  ghost predicate Bounded(t: Stats, n: nat, window: real) {
    && t.pos + t.neg + t.zero == n
    && 0.0 <= t.posSum as real <= window * t.pos as real
    && 0.0 <= -t.negSum as real <= window * t.neg as real
  }

  lemma PlusKeepsBounds(t: Stats, d: int, n: nat, window: real)
    requires Bounded(t, n, window) && -window <= d as real <= window
    ensures Bounded(t.Plus(d), n + 1, window)
  {
    if d > 0 {
      assert window * (t.pos + 1) as real == window * t.pos as real + window;
    } else if d < 0 {
      assert window * (t.neg + 1) as real == window * t.neg as real + window;
    }
  }

  lemma {:induction false} StatsBounds(delays: seq<int>, window: real)
    requires Within(delays, window)
    ensures Bounded(StatsOf(delays), |delays|, window)
  {
    if delays != [] {
      var init := delays[..|delays| - 1];
      StatsBounds(init, window);
      PlusKeepsBounds(StatsOf(init), delays[|delays| - 1], |init|, window);
    }
  }

  // What is claimed of a link inferred from `n` delays.
  ghost predicate Sound(l: Link, n: nat, window: real) {
    && l.occurrences == n >= 2
    && 0.5 <= l.dominance <= 1.0
    && 0.0 <= l.avgDelay <= window
    && 0.1 < l.confidence <= 1.0
  }

  lemma MoreDelaysMoreRoom(window: real, winners: nat, zero: nat)
    requires window >= 0.0
    ensures window * winners as real <= window * (winners + zero) as real
  {
    assert window * (winners + zero) as real == window * winners as real + window * zero as real;
    assert window * zero as real >= 0.0;
  }

  lemma AverageBounds(total: real, winners: nat, zero: nat, window: real)
    requires window >= 0.0 && winners + zero > 0 && 0.0 <= total <= window * winners as real
    ensures 0.0 <= total / (winners + zero) as real <= window
  {
    MoreDelaysMoreRoom(window, winners, zero);
    RatioBounds(total, (winners + zero) as real, 0.0, window);
  }

  lemma DominanceBounds(directional: nat, n: nat)
    requires n > 0 && directional <= n <= 2 * directional
    ensures 0.5 <= directional as real / n as real <= 1.0
  {
    RatioBounds(directional as real, n as real, 0.5, 1.0);
  }

  lemma LinkIsSound(s: Scoring, source: int, target: int, total: int, winners: nat, zero: nat, n: nat, window: real)
    requires Sane(s) && n >= 2 && window >= 0.0
    requires 0.0 <= total as real <= window * winners as real
    requires winners + zero <= n <= 2 * winners + zero
    ensures Sound(MakeLink(s, source, target, total, winners + zero, n), n, window)
  {
    var directional := winners + zero;
    AverageBounds(total as real, winners, zero, window);
    DominanceBounds(directional, n);
    ConfidenceBounds(s, total as real / directional as real, n, directional as real / n as real);
  }

  lemma ConfidenceBounds(s: Scoring, avg: real, n: nat, dominance: real)
    requires Sane(s) && avg >= 0.0 && n >= 2 && 0.5 <= dominance <= 1.0
    ensures 0.1 < Confidence(s, avg, n, dominance) <= 1.0
  {
    assert -s.decay * avg <= 0.0;
    var proximity := Proximity(s, avg);
    assert 0.0 < proximity <= 1.0;
    assert s.log(10.0) > 0.0 && s.log((n + 1) as real) > 0.0;
    assert s.log((n + 1) as real) / s.log(10.0) > 0.0;
  }

  ghost predicate Increasing(f: real -> real) {
    forall x: real, y: real :: x <= y ==> f(x) <= f(y)
  }

  // A shorter delay, more occurrences and a clearer lead never lower the confidence.
  lemma ConfidenceIsMonotone(s: Scoring, avg: real, later: real, n: nat, more: nat, dominance: real, clearer: real)
    requires Sane(s) && Increasing(s.exp) && Increasing(s.log)
    requires avg <= later && n <= more && dominance <= clearer
    ensures Confidence(s, later, n, dominance) <= Confidence(s, avg, more, clearer)
  {
    assert -s.decay * later <= -s.decay * avg by {
      assert s.decay * (later - avg) >= 0.0;
    }
    assert Proximity(s, later) <= Proximity(s, avg);
    var a, b, c := s.log((n + 1) as real), s.log((more + 1) as real), s.log(10.0);
    assert a <= b && c > 0.0;
    QuotientsKeepOrder(a, b, c);
  }

  lemma QuotientsKeepOrder(a: real, b: real, c: real)
    requires a <= b && c > 0.0
    ensures a / c <= b / c
  {
    var q := a / c;
    assert q * c == a;
    RatioBounds(b, c, q, q);
  }

  lemma InferredIsSound(p: Pair, n: nat, t: Stats, s: Scoring, window: real)
    requires Sane(s) && Bounded(t, n, window) && (n >= 2 ==> window >= 0.0)
    ensures InferFrom(p, n, t, s).Some? <==> n >= 2
    ensures n >= 2 ==>
              var l := InferFrom(p, n, t, s).value;
              && (if t.pos >= t.neg then (l.source, l.target) == (p.first, p.second)
                  else (l.source, l.target) == (p.second, p.first))
              && Sound(l, n, window)
  {
    LeadIsMajority(t);
    if n >= 2 {
      if t.pos >= t.neg {
        LinkIsSound(s, p.first, p.second, t.posSum, t.pos, t.zero, n, window);
      } else {
        LinkIsSound(s, p.second, p.first, -t.negSum, t.neg, t.zero, n, window);
      }
    }
  }

  // SOUNDNESS: a pair gives a link exactly when it has two co-occurrences, so the test for an
  // empty list of delays never fires; the link joins the two clusters, the one that leads more
  // often first, with at least half of the delays behind it, a mean delay inside the window, and
  // a confidence above 0.1 and at most 1.
  lemma LinksAreSound(p: Pair, delays: seq<int>, s: Scoring, window: real)
    requires Sane(s) && Within(delays, window)
    ensures InferLink(p, delays, s).Some? <==> |delays| >= 2
    ensures InferLink(p, delays, s).Some? ==>
              var l, t := InferLink(p, delays, s).value, StatsOf(delays);
              && (if t.pos >= t.neg then (l.source, l.target) == (p.first, p.second)
                  else (l.source, l.target) == (p.second, p.first))
              && Sound(l, |delays|, window)
  {
    StatsBounds(delays, window);
    assert |delays| >= 2 ==> -window <= delays[0] as real <= window;
    InferredIsSound(p, |delays|, StatsOf(delays), s, window);
  }

  // `w` is `s` without its k-th delay.
  ghost predicate Without(s: seq<int>, k: nat, w: seq<int>) {
    k < |s| && w == s[..k] + s[k + 1..]
  }

  lemma {:induction false} StatsWithout(s: seq<int>, k: nat, w: seq<int>)
    requires Without(s, k, w)
    ensures StatsOf(s) == StatsOf(w).Plus(s[k])
  {
    if k == |s| - 1 {
      assert w == s[..|s| - 1];
    } else {
      var s', w' := s[..|s| - 1], w[..|w| - 1];
      assert w' == s'[..k] + s'[k + 1..];
      assert w[|w| - 1] == s[|s| - 1] && s'[k] == s[k];
      StatsWithout(s', k, w');
      PlusCommutes(StatsOf(w'), s[k], s[|s| - 1]);
    }
  }

  lemma PlusCommutes(t: Stats, d: int, e: int)
    ensures t.Plus(d).Plus(e) == t.Plus(e).Plus(d)
  {
  }

  lemma {:induction false} StatsPermute(s: seq<int>, t: seq<int>)
    requires multiset(s) == multiset(t)
    ensures StatsOf(s) == StatsOf(t)
    decreases s
  {
    assert |s| == |multiset(s)| == |t|;
    if s != [] {
      var k := WithoutOne(s, t);
      var w := t[..k] + t[k + 1..];
      StatsPermute(s[1..], w);
      StatsWithout(s, 0, s[1..]);
      StatsWithout(t, k, w);
    }
  }

  // The link of a pair depends only on how often each delay occurs.
  lemma LinkIgnoresOrder(p: Pair, s: seq<int>, t: seq<int>, sc: Scoring)
    requires multiset(s) == multiset(t) && sc.log(10.0) != 0.0
    ensures InferLink(p, s, sc) == InferLink(p, t, sc)
  {
    StatsPermute(s, t);
    assert |s| == |multiset(s)| == |t|;
  }

  ghost predicate AllWithin(ds: multiset<int>, window: real) {
    forall d :: d in ds ==> -window <= d as real <= window
  }

  lemma {:induction false} SumWithin(es: seq<Event>, f: Event -> multiset<int>, window: real)
    requires forall e <- es :: AllWithin(f(e), window)
    ensures AllWithin(Sum(es, f), window)
  {
    if es != [] {
      assert es[0] in es;
      SumWithin(es[1..], f, window);
    }
  }

  lemma DelaysAreWithin(es: seq<Event>, delays: seq<int>, p: Pair, window: real)
    requires multiset(delays) == AllDelays(es, p, window)
    ensures Within(delays, window)
  {
    forall a | a in es ensures AllWithin(Rows(es, p, window)(a), window) {
      SumWithin(es, From(a, p, window), window);
    }
    SumWithin(es, Rows(es, p, window), window);
    forall i | 0 <= i < |delays| ensures -window <= delays[i] as real <= window {
      assert delays[i] in multiset(delays);
    }
  }

  method InferOne(p: Pair, delays: seq<int>, s: Scoring) returns (link: Option<Link>)
    requires s.log(10.0) != 0.0
    ensures link == InferLink(p, delays, s)
  {
    if |delays| < 2 {
      return None;
    }
    var t := Stats(0, 0, 0, 0, 0);
    for i := 0 to |delays|
      invariant t == StatsOf(delays[..i])
    {
      assert delays[..i + 1][..i] == delays[..i];
      t := t.Plus(delays[i]);
    }
    assert delays[..|delays|] == delays;
    var posCount := t.pos as real + t.zero as real / 2.0;
    var negCount := t.neg as real + t.zero as real / 2.0;
    var source, target, total, directional;
    if posCount >= negCount {
      source, target, total, directional := p.first, p.second, t.posSum, t.pos + t.zero;
    } else {
      source, target, total, directional := p.second, p.first, -t.negSum, t.neg + t.zero;
    }
    if directional == 0 {
      return None;
    }
    var made := ScoreLink(s, source, target, total, directional, |delays|);
    link := Some(made);
  }

  // The mean of the delays the way the link points, and the three scores weighed together.
  method ScoreLink(s: Scoring, source: int, target: int, total: int, directional: nat, occurrences: nat)
    returns (link: Link)
    requires directional > 0 && occurrences > 0 && s.log(10.0) != 0.0
    ensures link == MakeLink(s, source, target, total, directional, occurrences)
  {
    var avgDelay := total as real / directional as real;
    var proximity := Proximity(s, avgDelay);
    var frequency := s.log((occurrences + 1) as real) / s.log(10.0);
    if frequency > 1.0 {
      frequency := 1.0;
    }
    var dominance := directional as real / occurrences as real;
    var confidence := proximity * 0.4 + frequency * 0.4 + dominance * 0.2;
    link := Link(source, target, confidence, avgDelay, occurrences, dominance);
  }

  // The two clusters a link joins, smaller id first.
  function Ends(l: Link): Pair {
    if l.source < l.target then Pair(l.source, l.target) else Pair(l.target, l.source)
  }

  // `l` is the link of its pair by the quadratic definition of the delays.
  ghost predicate LinkOf(l: Link, es: seq<Event>, p: Pair, window: real, s: Scoring)
    requires s.log(10.0) != 0.0
  {
    exists ds: seq<int> :: multiset(ds) == AllDelays(es, p, window) && InferLink(p, ds, s) == Some(l)
  }

  lemma LinkJoinsItsPair(p: Pair, delays: seq<int>, s: Scoring)
    requires s.log(10.0) != 0.0 && p.first < p.second
    ensures InferLink(p, delays, s).Some? ==>
              var l := InferLink(p, delays, s).value; l.source != l.target && Ends(l) == p
  {
  }

  // What the loop over `interactions` has made of the pairs seen so far.
  ghost predicate Inferred(links: seq<Link>, seen: seq<Pair>, c: Collected, s: Scoring)
    requires s.log(10.0) != 0.0
  {
    && (forall l <- links :: Ends(l) in seen && l.source != l.target && InferLink(Ends(l), c.Of(Ends(l)), s) == Some(l))
    && (forall p <- seen :: InferLink(p, c.Of(p), s).Some? ==> InferLink(p, c.Of(p), s).value in links)
    && (forall i, j :: 0 <= i < j < |links| ==> Ends(links[i]) != Ends(links[j]))
  }

  lemma OneMorePair(links: seq<Link>, seen: seq<Pair>, p: Pair, c: Collected, s: Scoring)
    requires s.log(10.0) != 0.0 && Inferred(links, seen, c, s) && p !in seen && p.first < p.second
    ensures var o := InferLink(p, c.Of(p), s);
            Inferred(if o.Some? then links + [o.value] else links, seen + [p], c, s)
  {
    LinkJoinsItsPair(p, c.Of(p), s);
    var o := InferLink(p, c.Of(p), s);
    if o.Some? {
      var links' := links + [o.value];
      assert o.value in links';
      assert forall l <- links :: l in links';
      forall i, j | 0 <= i < j < |links'| ensures Ends(links'[i]) != Ends(links'[j]) {
        assert links'[i] in links;
      }
    }
  }

  lemma LinksAreExact(links: seq<Link>, c: Collected, es: seq<Event>, window: real, s: Scoring, p: Pair, l: Link)
    requires s.log(10.0) != 0.0 && Inferred(links, c.order, c, s) && c.WellKeyed()
    requires p.first < p.second && multiset(c.Of(p)) == AllDelays(es, p, window)
    ensures l in links && Ends(l) == p <==> LinkOf(l, es, p, window, s)
  {
    if l in links && Ends(l) == p {
      assert InferLink(p, c.Of(p), s) == Some(l);
    }
    if LinkOf(l, es, p, window, s) {
      var ds :| multiset(ds) == AllDelays(es, p, window) && InferLink(p, ds, s) == Some(l);
      LinkIgnoresOrder(p, ds, c.Of(p), s);
      LinkJoinsItsPair(p, ds, s);
      assert p in c.delays;
    }
  }

  method InferAll(c: Collected, s: Scoring) returns (links: seq<Link>)
    requires s.log(10.0) != 0.0 && c.WellKeyed()
    ensures Inferred(links, c.order, c, s)
  {
    links := [];
    for i := 0 to |c.order|
      invariant Inferred(links, c.order[..i], c, s)
    {
      var p := c.order[i];
      assert c.order[..i + 1] == c.order[..i] + [p] && p !in c.order[..i];
      assert p in c.delays;
      OneMorePair(links, c.order[..i], p, c, s);
      var link := InferOne(p, c.Of(p), s);
      if link.Some? {
        links := links + [link.value];
      }
    }
    assert c.order[..|c.order|] == c.order;
  }

  // From the sorted timeline on: for every pair of clusters the links made are exactly those
  // of the quadratic definition; no link is a self-link, and no two links join the same two
  // clusters, in either direction.
  method LinkTimeline(timeline: seq<Event>, window: real, s: Scoring) returns (links: seq<Link>)
    requires Sorted(timeline) && s.log(10.0) != 0.0
    ensures forall p: Pair, l: Link | p.first < p.second ::
              l in links && Ends(l) == p <==> LinkOf(l, timeline, p, window, s)
    ensures forall l <- links :: l.source != l.target
    ensures forall i, j :: 0 <= i < j < |links| ==> Ends(links[i]) != Ends(links[j])
  {
    var c := WindowSearch(timeline, window);
    links := InferAll(c, s);
    forall p: Pair, l: Link | p.first < p.second
      ensures l in links && Ends(l) == p <==> LinkOf(l, timeline, p, window, s)
    {
      LinksAreExact(links, c, timeline, window, s, p, l);
    }
  }

  // A link made from a timeline is sound, and its pair has at least two delays behind it.
  lemma LinkOfIsSound(l: Link, es: seq<Event>, p: Pair, window: real, s: Scoring)
    requires Sane(s) && LinkOf(l, es, p, window, s)
    ensures Sound(l, |AllDelays(es, p, window)|, window)
  {
    var ds :| multiset(ds) == AllDelays(es, p, window) && InferLink(p, ds, s) == Some(l);
    DelaysAreWithin(es, ds, p, window);
    LinksAreSound(p, ds, s, window);
    assert |multiset(ds)| == |ds|;
  }

  // What is linked does not depend on the order of the input or on how ties are sorted.
  lemma LinksIgnoreInputOrder(es: seq<Event>, fs: seq<Event>, l: Link, p: Pair, window: real, s: Scoring)
    requires multiset(es) == multiset(fs) && s.log(10.0) != 0.0
    ensures LinkOf(l, es, p, window, s) <==> LinkOf(l, fs, p, window, s)
  {
    AllDelaysPermute(es, fs, p, window);
  }

  predicate NotLater(a: Event, b: Event) {
    a.time <= b.time
  }

  lemma OrderedIsSorted(timeline: seq<Event>)
    requires Sorting.Ordered(timeline, NotLater)
    ensures Sorted(timeline)
  {
    forall i, j | 0 <= i < j < |timeline| ensures timeline[i].time <= timeline[j].time {
      assert NotLater(timeline[i], timeline[j]);
    }
  }

  lemma TimelineIsSorted(events: seq<Event>)
    ensures Sorted(Sorting.Sort(events, NotLater)) && multiset(Sorting.Sort(events, NotLater)) == multiset(events)
  {
    Sorting.SortContent(events, NotLater);
    assert Sorting.Preorder(NotLater);
    Sorting.SortIsOrdered(events, NotLater);
    OrderedIsSorted(Sorting.Sort(events, NotLater));
  }

  // `analyze` on events in any order: sort, search the window, infer.  The links made are exactly
  // those of the quadratic definition on the events as given.
  method Analyze(events: seq<Event>, window: real, s: Scoring) returns (links: seq<Link>)
    requires s.log(10.0) != 0.0
    ensures forall p: Pair, l: Link | p.first < p.second ::
              l in links && Ends(l) == p <==> LinkOf(l, events, p, window, s)
    ensures forall l <- links :: l.source != l.target
    ensures forall i, j :: 0 <= i < j < |links| ==> Ends(links[i]) != Ends(links[j])
  {
    var timeline := Sorting.Sort(events, NotLater);
    TimelineIsSorted(events);
    links := LinkTimeline(timeline, window, s);
    forall p: Pair, l: Link | p.first < p.second
      ensures l in links && Ends(l) == p <==> LinkOf(l, events, p, window, s)
    {
      LinksIgnoreInputOrder(timeline, events, l, p, window, s);
    }
  }
}
