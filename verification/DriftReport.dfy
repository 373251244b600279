/**
  What a drift report says, in terms of the clusters alone: which kind and severity a pair gets,
  in which order events come, and what the totals and the health score are.
*/
module DriftReport {
  import opened Drift
  import opened Options
  import opened Reals
  import Sequences

  // ---------------------------------------------------------------- matching

  // Two token sets share more than two fifths of all their tokens, or have none.
  ghost predicate Alike(a: set<string>, b: set<string>) {
    (a == {} && b == {}) || 5 * |a * b| > 2 * |a + b|
  }

  lemma AlikeIff(a: set<string>, b: set<string>)
    ensures Jaccard(a, b) > MATCH_THRESHOLD <==> Alike(a, b)
  {
    if a != {} || b != {} {
      NonEmptyUnion(a, b);
      RatioBounds(|a * b| as real, |a + b| as real, 0.0, MATCH_THRESHOLD);
    }
  }

  // SIMILARITY: what is matched shares more than two fifths of its tokens, and no cluster left over
  // does so with another.
  lemma MatchedAreAlike(runA: seq<Cluster>, runB: seq<Cluster>)
    ensures var m := Match(runA, runB);
            && (forall p <- m.pairs :: p.before in runA && p.after in runB && Alike(p.before.tokens, p.after.tokens))
            && (forall a <- runA, b <- runB :: a.id !in m.a && b.id !in m.b ==> !Alike(a.tokens, b.tokens))
  {
    var m := Match(runA, runB);
    PairsAreGreedy(runA, runB);
    MatchingIsMaximal(runA, runB);
    forall p | p in m.pairs ensures p.before in runA && p.after in runB && Alike(p.before.tokens, p.after.tokens) {
      var k :| 0 <= k < |m.pairs| && m.pairs[k] == p;
      assert Best(m.pairs[k].before, m.pairs[k].after, runB, Claimed(m.pairs[..k]));
      AlikeIff(p.before.tokens, p.after.tokens);
    }
    forall a, b | a in runA && b in runB && a.id !in m.a && b.id !in m.b ensures !Alike(a.tokens, b.tokens) {
      AlikeIff(a.tokens, b.tokens);
    }
  }

  // Of two candidates the one that shares the larger part of the tokens is the more similar.
  lemma MoreSharedIsMoreSimilar(a: set<string>, b: set<string>, c: set<string>)
    requires a != {}
    ensures Jaccard(a, b) <= Jaccard(a, c) <==> |a * b| * |a + c| <= |a * c| * |a + b|
  {
    NonEmptyUnion(a, b);
    NonEmptyUnion(a, c);
    CrossMultiplied(|a * b|, |a + b|, |a * c|, |a + c|);
  }

  lemma CrossMultiplied(x: int, m: int, y: int, n: int)
    requires m > 0 && n > 0
    ensures x as real / m as real <= y as real / n as real <==> x * n <= y * m
  {
    var q := y as real / n as real;
    QuotientTimes(y as real, n as real);
    RatioBounds(x as real, m as real, 0.0, q);
    Cleared(q, x as real, m as real, n as real, y as real);
    assert (x * n) as real == x as real * n as real && (y * m) as real == y as real * m as real;
  }

  lemma Cleared(q: real, x: real, m: real, n: real, y: real)
    requires n > 0.0 && q * n == y
    ensures x <= q * m <==> x * n <= y * m
  {
    assert (q * m - x) * n == y * m - x * n;
    SignOfProduct(q * m - x, n);
  }

  // The clusters of a run with one of `ids`.
  ghost function Only(cs: seq<Cluster>, ids: set<int>): seq<Cluster> {
    if cs == [] then []
    else Only(cs[..|cs| - 1], ids) + if cs[|cs| - 1].id in ids then [cs[|cs| - 1]] else []
  }

  ghost function Firsts(pairs: seq<Pair>): seq<Cluster> {
    if pairs == [] then [] else Firsts(pairs[..|pairs| - 1]) + [pairs[|pairs| - 1].before]
  }

  lemma {:induction false} OnlyIgnores(cs: seq<Cluster>, ids: set<int>, id: int)
    requires id !in Ids(cs)
    ensures Only(cs, ids + {id}) == Only(cs, ids)
  {
    if cs != [] {
      OnlyIgnores(cs[..|cs| - 1], ids, id);
    }
  }

  // The clusters of run A choose in the order of the run: the pairs are those that got a match, in
  // that order.
  lemma {:induction false} PairsFollowTheRun(runA: seq<Cluster>, runB: seq<Cluster>)
    requires DistinctIds(runA)
    ensures Firsts(Match(runA, runB).pairs) == Only(runA, Match(runA, runB).a)
  {
    if runA != [] {
      var init, ca := runA[..|runA| - 1], runA[|runA| - 1];
      var m := Match(init, runB);
      LastIdIsNew(runA);
      PairsFollowTheRun(init, runB);
      MatchedIds(init, runB);
      var best := Scan(ca.tokens, runB, m.b).0;
      if best.Some? {
        OnlyIgnores(init, m.a, ca.id);
        Sequences.InitOfSnoc(m.pairs, Pair(ca, best.value));
      }
    }
  }

  // ---------------------------------------------------------------- kinds

  const PRIORITIES: seq<string> := ["P0", "P1", "P2", "P3"]

  // `p` is one of the four priorities, and `q` neither it nor one before it.
  ghost predicate MoreSevere(p: string, q: string) {
    exists i: nat :: i < 4 && p == PRIORITIES[i] && NoneUpTo(q, i)
  }

  ghost predicate NoneUpTo(q: string, i: nat)
    requires i < 4
  {
    forall j :: 0 <= j <= i ==> q != PRIORITIES[j]
  }

  lemma RankIsPlace(p: string, i: nat)
    requires i < 4
    ensures Rank(p, 4) == i <==> p == PRIORITIES[i]
    ensures Rank(p, 4) <= 4
  {
    assert PRIORITIES[0] == "P0" && PRIORITIES[1] == "P1" && PRIORITIES[2] == "P2" && PRIORITIES[3] == "P3";
    assert "P0"[1] == '0' && "P1"[1] == '1' && "P2"[1] == '2' && "P3"[1] == '3' && |"unknown"| > 2;
  }

  lemma RanksOrder(p: string, q: string)
    ensures Rank(p, 4) < Rank(q, 4) <==> MoreSevere(p, q)
  {
    RankIsPlace(p, 0);
    RankIsPlace(q, 0);
    if Rank(p, 4) < Rank(q, 4) {
      LowerRankIsMoreSevere(p, q);
    }
    if MoreSevere(p, q) {
      var i: nat :| i < 4 && p == PRIORITIES[i] && NoneUpTo(q, i);
      RankIsPlace(p, i);
      if Rank(q, 4) < 4 {
        RankIsPlace(q, Rank(q, 4));
      }
    }
  }

  lemma LowerRankIsMoreSevere(p: string, q: string)
    requires Rank(p, 4) < Rank(q, 4) <= 4
    ensures MoreSevere(p, q)
  {
    var i := Rank(p, 4);
    RankIsPlace(p, i);
    forall j | 0 <= j <= i ensures q != PRIORITIES[j] {
      RankIsPlace(q, j);
    }
    assert NoneUpTo(q, i);
  }

  function Base(c: Cluster): int { if c.size > 1 then c.size else 1 }

  // The kind of a matched pair: a change of priority first, then a change of half the old volume,
  // then a rise of the anomaly score.
  lemma KindIsExact(ca: Cluster, cb: Cluster)
    ensures KindOf(ca, cb)
         == if MoreSevere(cb.priority, ca.priority) then Escalated
            else if MoreSevere(ca.priority, cb.priority) then DeEscalated
            else if 2 * (cb.size - ca.size) >= Base(ca) then VolumeSurge
            else if 2 * (ca.size - cb.size) >= Base(ca) then VolumeDrop
            else if cb.anomaly >= ca.anomaly + 0.15 then AnomalySpike
            else Stable
  {
    RanksOrder(ca.priority, cb.priority);
    RanksOrder(cb.priority, ca.priority);
    HalfOrMore(cb.size - ca.size, Base(ca));
  }

  // ---------------------------------------------------------------- events

  // The event of a matched pair: whose it is, how much volume, against the old one, and anomaly
  // it gained, and how severe that is.
  lemma PairEvent(ca: Cluster, cb: Cluster)
    ensures var e, worse := Change(Pair(ca, cb)), MoreSevere(cb.priority, ca.priority);
            && e.before == Some(ca) && e.after == Some(cb)
            && e.priorityBefore == ca.priority && e.priorityAfter == cb.priority
            && e.deltaVolume * Base(ca) as real == (cb.size - ca.size) as real
            && ca.anomaly + e.deltaAnomaly == cb.anomaly
            && e.kind == KindOf(ca, cb)
            && (e.severity == Critical <==> worse && cb.priority == "P0")
            && (e.severity == High <==> (worse && cb.priority == "P1") || e.kind == AnomalySpike)
            && (e.severity == Medium
                <==> e.kind == VolumeSurge || (worse && cb.priority != "P0" && cb.priority != "P1"))
  {
    KindIsExact(ca, cb);
    QuotientTimes((cb.size - ca.size) as real, Base(ca) as real);
    assert "P0"[1] == '0' && "P1"[1] == '1';
  }

  // A cluster that went is never severe, one that came is when it has one of the two top priorities.
  lemma UnpairedEvents(c: Cluster)
    ensures Resolution(c) == Event(Resolved, Some(c), None, 0.0, 0.0, c.priority, "resolved", Low)
    ensures Emergence(c) == Event(Emerged, None, Some(c), 0.0, 0.0, "none", c.priority,
                                  if c.priority in {"P0", "P1"} then High else Low)
  {
  }

  // ---------------------------------------------------------------- order

  const SEVERITIES: seq<Severity> := [Critical, High, Medium, Low]

  const KINDS: seq<Kind> :=
    [Escalated, Emerged, AnomalySpike, VolumeSurge, Resolved, DeEscalated, VolumeDrop, Stable]

  ghost predicate AtOrAfter<T(!new)>(order: seq<T>, x: T, y: T) {
    exists i, j :: 0 <= i <= j < |order| && order[i] == x && order[j] == y
  }

  // `e` may stand behind `d`: less severe, or as severe and of a kind no more urgent.
  ghost predicate MayFollow(d: Event, e: Event) {
    && AtOrAfter(SEVERITIES, d.severity, e.severity)
    && (d.severity == e.severity ==> AtOrAfter(KINDS, d.kind, e.kind))
  }

  lemma SeveritiesAreRanked(s: Severity)
    ensures SEVERITIES[SeverityRank(s)] == s
    ensures forall i :: 0 <= i < 4 && SEVERITIES[i] == s ==> i == SeverityRank(s)
  {
  }

  lemma KindsAreRanked(k: Kind)
    ensures KINDS[KindRank(k)] == k
    ensures forall i :: 0 <= i < 8 && KINDS[i] == k ==> i == KindRank(k)
  {
  }

  lemma OrderIsMeant(d: Event, e: Event)
    ensures NotAfter(d, e) <==> MayFollow(d, e)
  {
    SeveritiesAreRanked(d.severity);
    SeveritiesAreRanked(e.severity);
    KindsAreRanked(d.kind);
    KindsAreRanked(e.kind);
  }

  // The events of a report stand in the order of their severity, and of their kind within it.
  lemma ReportIsInOrder(runA: seq<Cluster>, runB: seq<Cluster>)
    ensures var es := CompareSpec(runA, runB).events;
            forall i, j :: 0 <= i < j < |es| ==> MayFollow(es[i], es[j])
  {
    var es := CompareSpec(runA, runB).events;
    SortContent(Events(runA, runB));
    forall i, j | 0 <= i < j < |es| ensures MayFollow(es[i], es[j]) {
      assert NotAfter(es[i], es[j]);
      OrderIsMeant(es[i], es[j]);
    }
  }

  // ---------------------------------------------------------------- what comes first

  lemma {:induction false} Mapped<T, U>(s: seq<T>, f: T -> U, x: T)
    requires x in s
    ensures f(x) in Map(s, f)
  {
    if x != s[|s| - 1] {
      Mapped(s[..|s| - 1], f, x);
    }
  }

  lemma {:induction false} MappedFrom<T, U>(s: seq<T>, f: T -> U, y: U) returns (x: T)
    requires y in Map(s, f)
    ensures x in s && f(x) == y
  {
    if y == f(s[|s| - 1]) {
      x := s[|s| - 1];
    } else {
      x := MappedFrom(s[..|s| - 1], f, y);
    }
  }

  lemma Reported(runA: seq<Cluster>, runB: seq<Cluster>, e: Event)
    ensures e in CompareSpec(runA, runB).events <==> e in Events(runA, runB)
  {
    SortContent(Events(runA, runB));
    assert e in multiset(CompareSpec(runA, runB).events) <==> e in multiset(Events(runA, runB));
  }

  // FIRST THINGS FIRST: a matched pair that reached P0 is a critical event, and no event that is
  // not critical stands before it.
  lemma ReachingP0ComesFirst(runA: seq<Cluster>, runB: seq<Cluster>, ca: Cluster, cb: Cluster) returns (k: nat)
    requires Pair(ca, cb) in Match(runA, runB).pairs && cb.priority == "P0" && ca.priority != "P0"
    ensures var es := CompareSpec(runA, runB).events;
            && k < |es| && es[k] == Change(Pair(ca, cb))
            && forall i :: 0 <= i <= k ==> es[i].severity == Critical
  {
    var es, e := CompareSpec(runA, runB).events, Change(Pair(ca, cb));
    P0IsMoreSevere(ca.priority);
    PairEvent(ca, cb);
    Mapped(Match(runA, runB).pairs, Change, Pair(ca, cb));
    Reported(runA, runB, e);
    k :| 0 <= k < |es| && es[k] == e;
    NothingBeforeCritical(runA, runB, k);
  }

  lemma NothingBeforeCritical(runA: seq<Cluster>, runB: seq<Cluster>, k: nat)
    requires var es := CompareSpec(runA, runB).events; k < |es| && es[k].severity == Critical
    ensures forall i :: 0 <= i <= k ==> CompareSpec(runA, runB).events[i].severity == Critical
  {
    var es := CompareSpec(runA, runB).events;
    ReportIsInOrder(runA, runB);
    forall i | 0 <= i < k ensures es[i].severity == Critical {
      assert MayFollow(es[i], es[k]);
      SeveritiesAreRanked(es[i].severity);
      SeveritiesAreRanked(es[k].severity);
    }
  }

  lemma P0IsMoreSevere(q: string)
    ensures MoreSevere("P0", q) <==> q != "P0"
  {
    RanksOrder("P0", q);
    RankIsPlace(q, 0);
  }

  // And only such pairs are critical.
  lemma CriticalMeansReachingP0(runA: seq<Cluster>, runB: seq<Cluster>, e: Event) returns (p: Pair)
    requires e in CompareSpec(runA, runB).events && e.severity == Critical
    ensures p in Match(runA, runB).pairs && e == Change(p) && p.after.priority == "P0" && p.before.priority != "P0"
  {
    var m := Match(runA, runB);
    Reported(runA, runB, e);
    if e in Map(m.pairs, Change) {
      p := MappedFrom(m.pairs, Change, e);
      PairEvent(p.before, p.after);
      P0IsMoreSevere(p.before.priority);
    } else if e in Map(Unmatched(runA, m.a), Resolution) {
      var c := MappedFrom(Unmatched(runA, m.a), Resolution, e);
      UnpairedEvents(c);
    } else {
      var c := MappedFrom(Unmatched(runB, m.b), Emergence, e);
      UnpairedEvents(c);
    }
  }

  // ---------------------------------------------------------------- the counts table

  function CountWhere(pairs: seq<Pair>, p: Pair -> bool): nat {
    if pairs == [] then 0 else CountWhere(pairs[..|pairs| - 1], p) + if p(pairs[|pairs| - 1]) then 1 else 0
  }

  lemma {:induction false} CountOfChanges(pairs: seq<Pair>, kind: Kind)
    ensures CountOf(Map(pairs, Change), kind) == CountWhere(pairs, (p: Pair) => KindOf(p.before, p.after) == kind)
  {
    if pairs != [] {
      CountOfChanges(pairs[..|pairs| - 1], kind);
      CountConcat(Map(pairs[..|pairs| - 1], Change), [Change(pairs[|pairs| - 1])], kind);
      OneEventCounts(Change(pairs[|pairs| - 1]), kind);
    }
  }

  lemma OneEventCounts(e: Event, kind: Kind)
    ensures CountOf([e], kind) == if e.kind == kind then 1 else 0
  {
    assert [e][..0] == [];
  }

  ghost function PairsOfKind(runA: seq<Cluster>, runB: seq<Cluster>, kind: Kind): nat {
    CountWhere(Match(runA, runB).pairs, (p: Pair) => KindOf(p.before, p.after) == kind)
  }

  // Every entry of the table is the number of matched pairs of its kind; what emerged and what was
  // resolved are the clusters without a match.
  lemma TableOfAReport(runA: seq<Cluster>, runB: seq<Cluster>)
    requires DistinctIds(runA) && DistinctIds(runB)
    ensures var c, matched := CountsOf(CompareSpec(runA, runB).events), CompareSpec(runA, runB).matched;
            && c.emerged == |runB| - matched && c.resolved == |runA| - matched
            && c.escalated == PairsOfKind(runA, runB, Escalated)
            && c.deEscalated == PairsOfKind(runA, runB, DeEscalated)
            && c.surges == PairsOfKind(runA, runB, VolumeSurge)
            && c.drops == PairsOfKind(runA, runB, VolumeDrop)
            && c.spikes == PairsOfKind(runA, runB, AnomalySpike)
            && c.stable == PairsOfKind(runA, runB, Stable)
  {
    CountsOfAReport(runA, runB);
    StableIsWhatIsLeft(Sort(Events(runA, runB)));
    PairsAreCounted(runA, runB, Escalated);
    PairsAreCounted(runA, runB, DeEscalated);
    PairsAreCounted(runA, runB, VolumeSurge);
    PairsAreCounted(runA, runB, VolumeDrop);
    PairsAreCounted(runA, runB, AnomalySpike);
    PairsAreCounted(runA, runB, Stable);
  }

  lemma PairsAreCounted(runA: seq<Cluster>, runB: seq<Cluster>, kind: Kind)
    requires kind != Emerged && kind != Resolved
    ensures CountOf(Sort(Events(runA, runB)), kind) == PairsOfKind(runA, runB, kind)
  {
    var m := Match(runA, runB);
    var goneA, newB := Unmatched(runA, m.a), Unmatched(runB, m.b);
    CountPermutes(Events(runA, runB), kind);
    CountConcat(Map(m.pairs, Change) + Map(goneA, Resolution), Map(newB, Emergence), kind);
    CountConcat(Map(m.pairs, Change), Map(goneA, Resolution), kind);
    CountOfChanges(m.pairs, kind);
    CountAll(goneA, Resolution, Resolved, kind);
    CountAll(newB, Emergence, Emerged, kind);
  }

  // ---------------------------------------------------------------- totals and health

  // A report counts both runs, mentions each cluster of either once, and has one event fewer for
  // each match.
  lemma ReportAddsUp(runA: seq<Cluster>, runB: seq<Cluster>)
    requires DistinctIds(runA) && DistinctIds(runB)
    ensures var r := CompareSpec(runA, runB);
            && r.clustersA == |runA| && r.clustersB == |runB| && |r.events| + r.matched == |runA| + |runB|
            && Befores(r.events) == multiset(runA) && Afters(r.events) == multiset(runB)
            && HealthScore(runA) + r.healthDelta == HealthScore(runB)
  {
    SortedReportIsThePartition(runA, runB);
    EveryClusterHasOneEvent(runA, runB);
  }

  lemma HalfTheTotal(t: real, n: int, q: real)
    requires n > 0 && q == t / (2 * n) as real
    ensures q * n as real == 0.5 * t
  {
    QuotientTimes(t, (2 * n) as real);
    assert q * (2 * n) as real == 2.0 * (q * n as real);
  }

  // The score of a run is half the mean of its clusters' shares, which add up.
  lemma HealthIsAMean(cs: seq<Cluster>)
    requires cs != []
    ensures HealthScore(cs) * |cs| as real == 0.5 * Total(cs)
  {
    HalfTheTotal(Total(cs), |cs|, HealthScore(cs));
  }

  // The score of one cluster is the mean of its priority's place among the four, a third each, and
  // what its anomaly leaves of 1; for the place an "unknown" priority has 4 thirds, and any other 1.
  // An empty run scores 1.
  lemma HealthOfOne(c: Cluster)
    ensures var place := HealthScore([c]) * 2.0 - (if c.anomaly < 1.0 then 1.0 - c.anomaly else 0.0);
            && (forall i | 0 <= i < 4 && c.priority == PRIORITIES[i] :: place == i as real / 3.0)
            && (c.priority == "unknown" ==> place == 4.0 / 3.0)
            && (c.priority != "unknown" && c.priority !in PRIORITIES ==> place == 1.0)
    ensures HealthScore([]) == 1.0
  {
    forall i | 0 <= i < 4 ensures Rank(c.priority, 4) == i <==> c.priority == PRIORITIES[i] {
      RankIsPlace(c.priority, i);
    }
    assert [c][..0] == [] && Total([c]) == Contribution(c);
    assert forall i | 0 <= i < 4 :: PRIORITIES[i] in PRIORITIES;
    HealthIsAMean([c]);
  }

  // The shares of two runs together are those of either, added.
  lemma {:induction false} TotalConcat(a: seq<Cluster>, b: seq<Cluster>)
    ensures Total(a + b) == Total(a) + Total(b)
  {
    if b == [] {
      assert a + b == a;
    } else {
      TotalConcat(a, b[..|b| - 1]);
      Sequences.InitOfConcat(a, b);
    }
  }
}
