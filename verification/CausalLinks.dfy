/**
  What a causal link says, in terms of the delays between its two clusters alone: which cluster it
  starts from, the mean of the delays that do not run against it, and the weights of its confidence.
*/
module CausalLinks {
  import opened CausalScorer
  import opened Options
  import opened Reals

  // The delays that do not run against a link, as lengths: forwards from p.first to p.second, or
  // backwards.  A delay of zero runs against neither.
  ghost function Along(delays: seq<int>, forwards: bool): seq<int> {
    if delays == [] then []
    else
      var d := if forwards then delays[|delays| - 1] else -delays[|delays| - 1];
      Along(delays[..|delays| - 1], forwards) + if d >= 0 then [d] else []
  }

  ghost function Total(lengths: seq<int>): int {
    if lengths == [] then 0 else Total(lengths[..|lengths| - 1]) + lengths[|lengths| - 1]
  }

  ghost function Closeness(s: Scoring, avg: real): real {
    s.exp(-(s.decay * avg))
  }

  ghost function Weighed(s: Scoring, avg: real, n: nat, dominance: real): real
    requires s.log(10.0) != 0.0
  {
    var frequency := s.log((n + 1) as real) / s.log(10.0);
    Closeness(s, avg) * 0.4 + (if frequency < 1.0 then frequency else 1.0) * 0.4 + dominance * 0.2
  }

  // The figures of a link with `along` of its `n` delays behind it, which are `total` in all.
  ghost predicate Figures(l: Link, n: nat, along: nat, total: int, s: Scoring)
    requires s.log(10.0) != 0.0
  {
    && l.occurrences == n
    && l.avgDelay * along as real == total as real
    && l.dominance * n as real == along as real
    && l.confidence == Weighed(s, l.avgDelay, n, l.dominance)
  }

  // `l` is what the delays of `p` say: it runs the way more of them do, forwards on a tie.
  ghost predicate Says(l: Link, p: Pair, delays: seq<int>, s: Scoring)
    requires s.log(10.0) != 0.0
  {
    var forwards := |Along(delays, true)| >= |Along(delays, false)|;
    var lengths := Along(delays, forwards);
    && |delays| >= 2 && |lengths| > 0
    && (l.source, l.target) == (if forwards then (p.first, p.second) else (p.second, p.first))
    && Figures(l, |delays|, |lengths|, Total(lengths), s)
  }

  lemma {:induction false} AlongIsCounted(delays: seq<int>)
    ensures var t := StatsOf(delays);
            && t.pos + t.neg + t.zero == |delays|
            && |Along(delays, true)| == t.pos + t.zero && Total(Along(delays, true)) == t.posSum
            && |Along(delays, false)| == t.neg + t.zero && Total(Along(delays, false)) == -t.negSum
  {
    if delays != [] {
      AlongIsCounted(delays[..|delays| - 1]);
      var a, b := Along(delays[..|delays| - 1], true), Along(delays[..|delays| - 1], false);
      var d := delays[|delays| - 1];
      assert (a + [d])[..|a + [d]| - 1] == a && (b + [-d])[..|b + [-d]| - 1] == b;
      assert a + [] == a && b + [] == b;
    }
  }

  lemma MeanIs(x: real, total: real, n: real)
    requires n > 0.0
    ensures x == total / n <==> x * n == total
  {
    var q := total / n;
    assert q * n == total;
    assert (x - q) * n == x * n - total;
    SignOfProduct(x - q, n);
    SignOfProduct(q - x, n);
  }

  lemma ProximityIsCloseness(s: Scoring, avg: real)
    ensures Proximity(s, avg) == Closeness(s, avg)
  {
    assert -s.decay * avg == -(s.decay * avg);
  }

  lemma ConfidenceIsWeighed(s: Scoring, avg: real, n: nat, dominance: real)
    requires s.log(10.0) != 0.0
    ensures Confidence(s, avg, n, dominance) == Weighed(s, avg, n, dominance)
  {
    ProximityIsCloseness(s, avg);
  }

  lemma MadeHasTheFigures(l: Link, s: Scoring, source: int, target: int, total: int, along: nat, n: nat)
    requires along > 0 && n > 0 && s.log(10.0) != 0.0
    ensures l == MakeLink(s, source, target, total, along, n)
            <==> (l.source, l.target) == (source, target) && Figures(l, n, along, total, s)
  {
    MeanIs(l.avgDelay, total as real, along as real);
    MeanIs(l.dominance, along as real, n as real);
    ConfidenceIsWeighed(s, l.avgDelay, n, l.dominance);
  }

  // A link is inferred exactly when it is what the delays say.
  lemma LinkSaysTheMean(l: Link, p: Pair, delays: seq<int>, s: Scoring)
    requires s.log(10.0) != 0.0
    ensures InferLink(p, delays, s) == Some(l) <==> Says(l, p, delays, s)
  {
    AlongIsCounted(delays);
    var t := StatsOf(delays);
    LeadIsMajority(t);
    if |delays| >= 2 {
      if t.pos >= t.neg {
        MadeHasTheFigures(l, s, p.first, p.second, t.posSum, t.pos + t.zero, |delays|);
      } else {
        MadeHasTheFigures(l, s, p.second, p.first, -t.negSum, t.neg + t.zero, |delays|);
      }
    }
  }

  // MEANING: the links of a timeline are those that the delays between two clusters, in any order,
  // say.
  lemma LinkOfSaysTheMean(l: Link, es: seq<Event>, p: Pair, window: real, s: Scoring)
    requires s.log(10.0) != 0.0
    ensures LinkOf(l, es, p, window, s)
            <==> exists delays: seq<int> :: multiset(delays) == AllDelays(es, p, window) && Says(l, p, delays, s)
  {
    if LinkOf(l, es, p, window, s) {
      var ds :| multiset(ds) == AllDelays(es, p, window) && InferLink(p, ds, s) == Some(l);
      LinkSaysTheMean(l, p, ds, s);
    }
    if ds: seq<int> :| multiset(ds) == AllDelays(es, p, window) && Says(l, p, ds, s) {
      LinkSaysTheMean(l, p, ds, s);
    }
  }

  // ---------------------------------------------------------------- causes come first

  // An event of `c` and one of `d`, of two services and no further apart than the window.
  predicate Meet(a: Event, b: Event, c: int, d: int, window: real) {
    && a.cluster == c && b.cluster == d && a.service != b.service
    && -window <= (b.time - a.time) as real <= window
  }

  // Within the window, an event of cluster `c` and one of `d`, of two services, are always `lo` to
  // `hi` apart, that of `c` first.
  ghost predicate Leads(es: seq<Event>, c: int, d: int, window: real, lo: int, hi: int) {
    forall a <- es, b <- es | Meet(a, b, c, d, window) :: lo <= b.time - a.time <= hi
  }

  lemma {:induction false} SumMember(es: seq<Event>, f: Event -> multiset<int>, x: int) returns (e: Event)
    requires x in Sum(es, f)
    ensures e in es && x in f(e)
  {
    if x in f(es[0]) {
      e := es[0];
    } else {
      e := SumMember(es[1..], f, x);
    }
  }

  lemma DelayMember(es: seq<Event>, p: Pair, window: real, x: int) returns (a: Event, b: Event)
    requires x in AllDelays(es, p, window)
    ensures a in es && b in es && x in Delay(a, b, p, window)
  {
    a := SumMember(es, Rows(es, p, window), x);
    b := SumMember(es, From(a, p, window), x);
  }

  ghost function MeetingsOf(a: Event, es: seq<Event>, c: int, d: int, window: real): nat {
    if es == [] then 0 else MeetingsOf(a, es[1..], c, d, window) + if Meet(a, es[0], c, d, window) then 1 else 0
  }

  ghost function Meetings(early: seq<Event>, es: seq<Event>, c: int, d: int, window: real): nat {
    if early == [] then 0 else Meetings(early[1..], es, c, d, window) + MeetingsOf(early[0], es, c, d, window)
  }

  lemma {:induction false} CountMeetingsOf(a: Event, es: seq<Event>, p: Pair, window: real)
    ensures |Sum(es, From(a, p, window))| == MeetingsOf(a, es, p.first, p.second, window)
  {
    if es != [] {
      CountMeetingsOf(a, es[1..], p, window);
    }
  }

  lemma {:induction false} CountMeetings(early: seq<Event>, es: seq<Event>, p: Pair, window: real)
    ensures |Sum(early, Rows(es, p, window))| == Meetings(early, es, p.first, p.second, window)
  {
    if early != [] {
      CountMeetings(early[1..], es, p, window);
      CountMeetingsOf(early[0], es, p, window);
    }
  }

  // `x` is the time from one of two events that meet to the other.
  ghost predicate Gap(es: seq<Event>, p: Pair, window: real, x: int) {
    exists a, b :: a in es && b in es && Meet(a, b, p.first, p.second, window) && b.time - a.time == x
  }

  lemma GapIsDelay(es: seq<Event>, p: Pair, window: real, a: Event, b: Event)
    requires a in es && b in es && Meet(a, b, p.first, p.second, window)
    ensures b.time - a.time in AllDelays(es, p, window)
  {
    InSum(es, From(a, p, window), b, b.time - a.time);
    InSum(es, Rows(es, p, window), a, b.time - a.time);
  }

  lemma DelayIsGap(es: seq<Event>, p: Pair, window: real, x: int)
    requires x in AllDelays(es, p, window)
    ensures Gap(es, p, window, x)
  {
    var a, b := DelayMember(es, p, window, x);
    assert Meet(a, b, p.first, p.second, window) && b.time - a.time == x;
  }

  // DELAYS: a pair has one delay for each two events that meet, the time from that of p.first to
  // that of p.second.
  lemma DelaysAreMeetings(es: seq<Event>, p: Pair, window: real)
    ensures |AllDelays(es, p, window)| == Meetings(es, es, p.first, p.second, window)
    ensures forall x: int :: x in AllDelays(es, p, window) <==> Gap(es, p, window, x)
  {
    CountMeetings(es, es, p, window);
    forall x: int ensures x in AllDelays(es, p, window) <==> Gap(es, p, window, x) {
      DelayIsGapIff(es, p, window, x);
    }
  }

  lemma DelayIsGapIff(es: seq<Event>, p: Pair, window: real, x: int)
    ensures x in AllDelays(es, p, window) <==> Gap(es, p, window, x)
  {
    if x in AllDelays(es, p, window) {
      DelayIsGap(es, p, window, x);
    } else if Gap(es, p, window, x) {
      var a, b :| a in es && b in es && Meet(a, b, p.first, p.second, window) && b.time - a.time == x;
      GapIsDelay(es, p, window, a, b);
    }
  }

  lemma {:induction false} InSum(es: seq<Event>, f: Event -> multiset<int>, e: Event, x: int)
    requires e in es && x in f(e)
    ensures x in Sum(es, f)
  {
    if es[0] != e {
      InSum(es[1..], f, e, x);
    }
  }

  // A delay of `p` as the link the given way sees it.
  ghost function Directed(forwards: bool, x: int): int {
    if forwards then x else -x
  }

  lemma {:induction false} AllAlong(delays: seq<int>, forwards: bool, lo: int, hi: int)
    requires 0 < lo && forall x <- delays :: lo <= Directed(forwards, x) <= hi
    ensures |Along(delays, forwards)| == |delays| && Along(delays, !forwards) == []
    ensures forall x <- Along(delays, forwards) :: lo <= x <= hi
  {
    if delays != [] {
      assert delays[|delays| - 1] in delays;
      AllAlong(delays[..|delays| - 1], forwards, lo, hi);
    }
  }

  lemma OneMoreTimes(c: int, n: int)
    ensures c * (n + 1) == c * n + c
  {
  }

  lemma {:induction false} TotalBetween(lengths: seq<int>, lo: int, hi: int)
    requires forall x <- lengths :: lo <= x <= hi
    ensures lo * |lengths| <= Total(lengths) <= hi * |lengths|
  {
    if lengths != [] {
      var n := |lengths| - 1;
      assert lengths[n] in lengths;
      assert forall x <- lengths[..n] :: x in lengths;
      TotalBetween(lengths[..n], lo, hi);
      OneMoreTimes(lo, n);
      OneMoreTimes(hi, n);
    }
  }

  lemma MeanBetween(x: real, total: int, n: int, lo: int, hi: int)
    requires n > 0 && x * n as real == total as real && lo * n <= total <= hi * n
    ensures lo as real <= x <= hi as real
  {
    MeanIs(x, total as real, n as real);
    RatioBounds(total as real, n as real, lo as real, hi as real);
  }

  lemma FiguresBetween(l: Link, n: nat, total: int, s: Scoring, lo: int, hi: int)
    requires s.log(10.0) != 0.0 && n > 0 && Figures(l, n, n, total, s) && lo * n <= total <= hi * n
    ensures l.dominance == 1.0 && lo as real <= l.avgDelay <= hi as real
  {
    MeanIs(l.dominance, n as real, n as real);
    MeanBetween(l.avgDelay, total, n, lo, hi);
  }

  lemma SaysAhead(l: Link, p: Pair, delays: seq<int>, s: Scoring, forwards: bool, lo: int, hi: int)
    requires s.log(10.0) != 0.0 && Says(l, p, delays, s)
    requires 0 < lo && forall x <- delays :: lo <= Directed(forwards, x) <= hi
    ensures (l.source, l.target) == if forwards then (p.first, p.second) else (p.second, p.first)
    ensures l.dominance == 1.0 && lo as real <= l.avgDelay <= hi as real
  {
    AllAlong(delays, forwards, lo, hi);
    var lengths := Along(delays, forwards);
    TotalBetween(lengths, lo, hi);
    FiguresBetween(l, |delays|, Total(lengths), s, lo, hi);
  }

  lemma DelaysLead(es: seq<Event>, c: int, d: int, window: real, lo: int, hi: int, delays: seq<int>)
    requires Leads(es, c, d, window, lo, hi)
    requires multiset(delays) == AllDelays(es, if c < d then Pair(c, d) else Pair(d, c), window)
    ensures forall x <- delays :: lo <= Directed(c < d, x) <= hi
  {
    forall x | x in delays ensures lo <= Directed(c < d, x) <= hi {
      assert x in multiset(delays);
      var a, b := DelayMember(es, if c < d then Pair(c, d) else Pair(d, c), window, x);
    }
  }

  // CAUSE BEFORE EFFECT: where the events of one cluster always precede those of the other by `lo`
  // to `hi`, a link runs from the first to the second, with every delay behind it and a mean
  // delay in that range.
  lemma CauseComesFirst(l: Link, es: seq<Event>, c: int, d: int, window: real, s: Scoring, lo: int, hi: int)
    requires s.log(10.0) != 0.0 && 0 < lo && c != d && Leads(es, c, d, window, lo, hi)
    requires LinkOf(l, es, if c < d then Pair(c, d) else Pair(d, c), window, s)
    ensures l.source == c && l.target == d && l.dominance == 1.0 && lo as real <= l.avgDelay <= hi as real
  {
    var p := if c < d then Pair(c, d) else Pair(d, c);
    LinkOfSaysTheMean(l, es, p, window, s);
    var delays :| multiset(delays) == AllDelays(es, p, window) && Says(l, p, delays, s);
    DelaysLead(es, c, d, window, lo, hi, delays);
    SaysAhead(l, p, delays, s, c < d, lo, hi);
  }
}
