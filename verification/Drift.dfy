/**
  The drift detector: greedy one-to-one matching of the clusters of two runs, and one event for
  every pair, every cluster that disappeared and every cluster that is new.

  A template is represented by its token set.  Descriptions and the summary are left out.
*/
module Drift {
  import opened Options
  import opened Reals
  import Sequences
  import Sorting

  datatype Cluster = Cluster(id: int, tokens: set<string>, size: int, anomaly: real, priority: string)

  datatype Kind = Emerged | Resolved | Escalated | DeEscalated | VolumeSurge | VolumeDrop | AnomalySpike | Stable

  datatype Severity = Critical | High | Medium | Low

  datatype Event = Event(
    kind: Kind,
    before: Option<Cluster>,
    after: Option<Cluster>,
    deltaVolume: real,
    deltaAnomaly: real,
    priorityBefore: string,
    priorityAfter: string,
    severity: Severity)

  // `_PRIORITY_RANK`, with the default its two users disagree on.
  function Rank(priority: string, default: nat): nat {
    if priority == "P0" then 0
    else if priority == "P1" then 1
    else if priority == "P2" then 2
    else if priority == "P3" then 3
    else if priority == "unknown" then 4
    else default
  }

  const MATCH_THRESHOLD := 0.4

  function Jaccard(a: set<string>, b: set<string>): real {
    if a == {} && b == {} then 1.0
    else if |a + b| > 0 then |a * b| as real / |a + b| as real
    else 0.0
  }

  lemma JaccardRange(a: set<string>, b: set<string>)
    ensures 0.0 <= Jaccard(a, b) <= 1.0
    ensures Jaccard(a, b) == 1.0 <==> a == b
    ensures Jaccard(a, b) == Jaccard(b, a)
  {
    assert a + b == b + a && a * b == b * a;
    if a != {} || b != {} {
      var rest := (a + b) - (a * b);
      assert a + b == a * b + rest;
      assert |a + b| == |a * b| + |rest|;
      assert a == b <==> rest == {};
      NonEmptyUnion(a, b);
      FractionRange(|a * b|, |a + b|);
    }
  }

  lemma NonEmptyUnion(a: set<string>, b: set<string>)
    requires a != {} || b != {}
    ensures |a + b| > 0
  {
    assert a + b != {};
  }

  lemma FractionRange(part: nat, whole: nat)
    requires part <= whole && whole > 0
    ensures 0.0 <= part as real / whole as real <= 1.0
    ensures part as real / whole as real == 1.0 <==> part == whole
  {
    var q, w := part as real / whole as real, whole as real;
    assert q * w == part as real;
    assert (1.0 - q) * w == w - part as real;
    SignOfProduct(q, w);
    SignOfProduct(1.0 - q, w);
  }

  // ---------------------------------------------------------------- matching

  datatype Pair = Pair(before: Cluster, after: Cluster)

  datatype Matching = Matching(pairs: seq<Pair>, a: set<int>, b: set<int>)

  // The inner loop: the best of `runB` not yet claimed, and its similarity.
  function Scan(tokens: set<string>, runB: seq<Cluster>, claimed: set<int>): (Option<Cluster>, real) {
    if runB == [] then (None, MATCH_THRESHOLD)
    else
      var (best, sim) := Scan(tokens, runB[..|runB| - 1], claimed);
      var cb := runB[|runB| - 1];
      if cb.id in claimed || Jaccard(tokens, cb.tokens) <= sim then (best, sim)
      else (Some(cb), Jaccard(tokens, cb.tokens))
  }

  function Take(m: Matching, ca: Cluster, best: Option<Cluster>): Matching {
    match best
    case None => m
    case Some(cb) => Matching(m.pairs + [Pair(ca, cb)], m.a + {ca.id}, m.b + {cb.id})
  }

  function Match(runA: seq<Cluster>, runB: seq<Cluster>): Matching {
    if runA == [] then Matching([], {}, {})
    else
      var m := Match(runA[..|runA| - 1], runB);
      var ca := runA[|runA| - 1];
      Take(m, ca, Scan(ca.tokens, runB, m.b).0)
  }

  function Ids(cs: seq<Cluster>): set<int> {
    set c | c in cs :: c.id
  }

  ghost predicate DistinctIds(cs: seq<Cluster>) {
    forall i, j :: 0 <= i < j < |cs| ==> cs[i].id != cs[j].id
  }

  // `b` is a best choice for `a` among the clusters of `runB` not claimed.
  ghost predicate Best(a: Cluster, b: Cluster, runB: seq<Cluster>, claimed: set<int>) {
    && b in runB && b.id !in claimed
    && Jaccard(a.tokens, b.tokens) > MATCH_THRESHOLD
    && forall c <- runB :: c.id !in claimed ==> Jaccard(a.tokens, c.tokens) <= Jaccard(a.tokens, b.tokens)
  }

  ghost predicate NoneLeft(tokens: set<string>, runB: seq<Cluster>, claimed: set<int>) {
    forall c <- runB :: c.id !in claimed ==> Jaccard(tokens, c.tokens) <= MATCH_THRESHOLD
  }

  lemma {:induction false} ScanFindsTheBest(a: Cluster, runB: seq<Cluster>, claimed: set<int>)
    ensures var (best, sim) := Scan(a.tokens, runB, claimed);
            && (forall c <- runB :: c.id !in claimed ==> Jaccard(a.tokens, c.tokens) <= sim)
            && (best.None? ==> sim == MATCH_THRESHOLD && NoneLeft(a.tokens, runB, claimed))
            && (best.Some? ==> sim == Jaccard(a.tokens, best.value.tokens) && Best(a, best.value, runB, claimed))
  {
    if runB != [] {
      var init, cb := runB[..|runB| - 1], runB[|runB| - 1];
      ScanFindsTheBest(a, init, claimed);
      assert forall c <- runB :: c in init || c == cb;
    }
  }

  // Of several best candidates the first in the list is taken.
  ghost predicate FirstBest(a: Cluster, runB: seq<Cluster>, claimed: set<int>, k: nat) {
    && k < |runB| && runB[k].id !in claimed
    && forall j :: 0 <= j < |runB| && runB[j].id !in claimed ==>
         if j < k then Jaccard(a.tokens, runB[j].tokens) < Jaccard(a.tokens, runB[k].tokens)
         else Jaccard(a.tokens, runB[j].tokens) <= Jaccard(a.tokens, runB[k].tokens)
  }

  lemma FirstBestStays(a: Cluster, init: seq<Cluster>, cb: Cluster, claimed: set<int>, k: nat)
    requires FirstBest(a, init, claimed, k)
    requires cb.id in claimed || Jaccard(a.tokens, cb.tokens) <= Jaccard(a.tokens, init[k].tokens)
    ensures FirstBest(a, init + [cb], claimed, k)
  {
  }

  lemma BetterIsFirstBest(a: Cluster, init: seq<Cluster>, cb: Cluster, claimed: set<int>)
    requires cb.id !in claimed
    requires forall c <- init :: c.id !in claimed ==> Jaccard(a.tokens, c.tokens) < Jaccard(a.tokens, cb.tokens)
    ensures FirstBest(a, init + [cb], claimed, |init|)
  {
    forall j | 0 <= j < |init| ensures (init + [cb])[j] in init { }
  }

  lemma {:induction false} ScanTakesTheFirst(a: Cluster, runB: seq<Cluster>, claimed: set<int>) returns (k: nat)
    requires Scan(a.tokens, runB, claimed).0.Some?
    ensures FirstBest(a, runB, claimed, k) && runB[k] == Scan(a.tokens, runB, claimed).0.value
    decreases |runB|
  {
    var init, cb := runB[..|runB| - 1], runB[|runB| - 1];
    assert runB == init + [cb];
    ScanFindsTheBest(a, init, claimed);
    var sim := Scan(a.tokens, init, claimed).1;
    if cb.id in claimed || Jaccard(a.tokens, cb.tokens) <= sim {
      k := ScanTakesTheFirst(a, init, claimed);
      FirstBestStays(a, init, cb, claimed, k);
    } else {
      k := |init|;
      BetterIsFirstBest(a, init, cb, claimed);
    }
  }

  // The clusters of run B claimed by `pairs`.
  function Claimed(pairs: seq<Pair>): set<int> {
    set p | p in pairs :: p.after.id
  }

  ghost predicate GreedyPairs(pairs: seq<Pair>, runA: seq<Cluster>, runB: seq<Cluster>) {
    forall k :: 0 <= k < |pairs| ==>
      pairs[k].before in runA && Best(pairs[k].before, pairs[k].after, runB, Claimed(pairs[..k]))
  }

  ghost predicate OneToOne(pairs: seq<Pair>) {
    forall i, j :: 0 <= i < j < |pairs| ==>
      pairs[i].before.id != pairs[j].before.id && pairs[i].after.id != pairs[j].after.id
  }

  // No cluster of A and cluster of B that are both unmatched are similar enough to be matched.
  ghost predicate Maximal(m: Matching, runA: seq<Cluster>, runB: seq<Cluster>) {
    forall a <- runA :: a.id !in m.a ==> NoneLeft(a.tokens, runB, m.b)
  }

  lemma {:induction false} MatchedIds(runA: seq<Cluster>, runB: seq<Cluster>)
    ensures var m := Match(runA, runB);
            m.b == Claimed(m.pairs) && m.a == (set p | p in m.pairs :: p.before.id) && m.a <= Ids(runA)
  {
    if runA != [] {
      MatchedIds(runA[..|runA| - 1], runB);
    }
  }

  lemma TakeKeepsGreedy(m: Matching, ca: Cluster, runA: seq<Cluster>, runB: seq<Cluster>)
    requires runA != [] && runA[|runA| - 1] == ca && m.b == Claimed(m.pairs)
    requires GreedyPairs(m.pairs, runA[..|runA| - 1], runB)
    ensures GreedyPairs(Take(m, ca, Scan(ca.tokens, runB, m.b).0).pairs, runA, runB)
  {
    ScanFindsTheBest(ca, runB, m.b);
    var pairs := Take(m, ca, Scan(ca.tokens, runB, m.b).0).pairs;
    forall k | 0 <= k < |pairs|
      ensures pairs[k].before in runA && Best(pairs[k].before, pairs[k].after, runB, Claimed(pairs[..k]))
    {
      if k < |m.pairs| {
        assert pairs[k] == m.pairs[k] && pairs[..k] == m.pairs[..k];
        assert m.pairs[k].before in runA[..|runA| - 1];
      } else {
        assert pairs[..k] == m.pairs;
      }
    }
  }

  // GREEDY: every pair took the best cluster not claimed by the pairs before it.
  lemma {:induction false} PairsAreGreedy(runA: seq<Cluster>, runB: seq<Cluster>)
    ensures GreedyPairs(Match(runA, runB).pairs, runA, runB)
  {
    if runA != [] {
      var init := runA[..|runA| - 1];
      PairsAreGreedy(init, runB);
      MatchedIds(init, runB);
      TakeKeepsGreedy(Match(init, runB), runA[|runA| - 1], runA, runB);
    }
  }

  lemma LastIdIsNew(runA: seq<Cluster>)
    requires runA != [] && DistinctIds(runA)
    ensures DistinctIds(runA[..|runA| - 1]) && runA[|runA| - 1].id !in Ids(runA[..|runA| - 1])
  {
  }

  lemma TakeKeepsOneToOne(m: Matching, ca: Cluster, best: Option<Cluster>)
    requires OneToOne(m.pairs) && (forall p <- m.pairs :: p.before.id in m.a && p.after.id in m.b)
    requires ca.id !in m.a && (best.Some? ==> best.value.id !in m.b)
    ensures OneToOne(Take(m, ca, best).pairs)
  {
    forall i | 0 <= i < |m.pairs| ensures m.pairs[i].before.id in m.a && m.pairs[i].after.id in m.b {
      assert m.pairs[i] in m.pairs;
    }
  }

  // With distinct ids in run A, no cluster of either run is in two pairs.
  lemma {:induction false} PairsAreOneToOne(runA: seq<Cluster>, runB: seq<Cluster>)
    requires DistinctIds(runA)
    ensures OneToOne(Match(runA, runB).pairs)
  {
    if runA != [] {
      var init, ca := runA[..|runA| - 1], runA[|runA| - 1];
      var m := Match(init, runB);
      LastIdIsNew(runA);
      PairsAreOneToOne(init, runB);
      MatchedIds(init, runB);
      ScanFindsTheBest(ca, runB, m.b);
      TakeKeepsOneToOne(m, ca, Scan(ca.tokens, runB, m.b).0);
    }
  }

  // MAXIMAL: what stays unmatched could not have been matched.
  lemma {:induction false} MatchingIsMaximal(runA: seq<Cluster>, runB: seq<Cluster>)
    ensures Maximal(Match(runA, runB), runA, runB)
  {
    if runA != [] {
      var init, ca := runA[..|runA| - 1], runA[|runA| - 1];
      var m, m' := Match(init, runB), Match(runA, runB);
      MatchingIsMaximal(init, runB);
      ScanFindsTheBest(ca, runB, m.b);
      assert m.b <= m'.b && m.a <= m'.a;
      forall a | a in runA && a.id !in m'.a ensures NoneLeft(a.tokens, runB, m'.b) {
        assert NoneLeft(a.tokens, runB, m.b);
      }
    }
  }

  // ---------------------------------------------------------------- events

  function Larger(x: int, y: int): int { if x < y then y else x }

  function DeltaVolume(ca: Cluster, cb: Cluster): real {
    (cb.size - ca.size) as real / Larger(ca.size, 1) as real
  }

  function KindOf(ca: Cluster, cb: Cluster): Kind {
    var rankA, rankB := Rank(ca.priority, 4), Rank(cb.priority, 4);
    if rankB < rankA then Escalated
    else if rankB > rankA then DeEscalated
    else if DeltaVolume(ca, cb) >= 0.5 then VolumeSurge
    else if DeltaVolume(ca, cb) <= -0.5 then VolumeDrop
    else if cb.anomaly - ca.anomaly >= 0.15 then AnomalySpike
    else Stable
  }

  lemma HalfOrMore(change: int, base: int)
    requires base > 0
    ensures change as real / base as real >= 0.5 <==> 2 * change >= base
    ensures change as real / base as real <= -0.5 <==> 2 * change <= -base
  {
    var c, b := change as real, base as real;
    var q := c / b;
    assert q * b == c;
    assert (q - 0.5) * b == c - 0.5 * b && (-0.5 - q) * b == -0.5 * b - c;
    SignOfProduct(q - 0.5, b);
    SignOfProduct(-0.5 - q, b);
  }

  // With equal ranks a surge is a change of at least half the old size, where an empty cluster
  // counts as one line, and a drop is a loss of at least half.
  lemma VolumeKinds(ca: Cluster, cb: Cluster)
    requires Rank(ca.priority, 4) == Rank(cb.priority, 4)
    ensures KindOf(ca, cb) == VolumeSurge <==> 2 * (cb.size - ca.size) >= Larger(ca.size, 1)
    ensures KindOf(ca, cb) == VolumeDrop <==> 2 * (ca.size - cb.size) >= Larger(ca.size, 1)
  {
    HalfOrMore(cb.size - ca.size, Larger(ca.size, 1));
  }

  // Exchanging the runs turns escalations into improvements and doublings into drops; nothing
  // but a pair of equal rank can be a matter of volume or anomaly.
  lemma ReversedRunsReverseKinds(ca: Cluster, cb: Cluster)
    ensures KindOf(ca, cb) == Escalated <==> KindOf(cb, ca) == DeEscalated
    ensures KindOf(ca, cb) == Escalated || KindOf(ca, cb) == DeEscalated
            <==> Rank(ca.priority, 4) != Rank(cb.priority, 4)
    ensures Rank(ca.priority, 4) == Rank(cb.priority, 4) && ca.size > 0 && cb.size >= 2 * ca.size ==>
              KindOf(ca, cb) == VolumeSurge && KindOf(cb, ca) == VolumeDrop
    ensures KindOf(ca, cb) == AnomalySpike ==> KindOf(cb, ca) != AnomalySpike
  {
    if Rank(ca.priority, 4) == Rank(cb.priority, 4) {
      VolumeKinds(ca, cb);
      VolumeKinds(cb, ca);
    }
  }

  function SeverityOf(kind: Kind, priorityBefore: string, priorityAfter: string): Severity {
    if kind == Escalated && priorityAfter == "P0" then Critical
    else if (kind == Escalated || kind == Emerged) && (priorityAfter == "P0" || priorityAfter == "P1") then High
    else if kind == AnomalySpike then High
    else if kind == VolumeSurge || kind == Escalated then Medium
    else Low
  }

  function Change(p: Pair): Event {
    var ca, cb := p.before, p.after;
    var kind := KindOf(ca, cb);
    Event(kind, Some(ca), Some(cb), DeltaVolume(ca, cb), cb.anomaly - ca.anomaly, ca.priority, cb.priority,
          SeverityOf(kind, ca.priority, cb.priority))
  }

  function Resolution(ca: Cluster): Event {
    Event(Resolved, Some(ca), None, 0.0, 0.0, ca.priority, "resolved", SeverityOf(Resolved, ca.priority, "resolved"))
  }

  function Emergence(cb: Cluster): Event {
    Event(Emerged, None, Some(cb), 0.0, 0.0, "none", cb.priority, SeverityOf(Emerged, "none", cb.priority))
  }

  function Map<T, U>(s: seq<T>, f: T -> U): seq<U> {
    if s == [] then [] else Map(s[..|s| - 1], f) + [f(s[|s| - 1])]
  }

  lemma {:induction false} MapLength<T, U>(s: seq<T>, f: T -> U)
    ensures |Map(s, f)| == |s|
  {
    if s != [] {
      MapLength(s[..|s| - 1], f);
    }
  }

  lemma MapInit<T, U>(s: seq<T>, f: T -> U)
    requires s != []
    ensures |Map(s, f)| == |s|
    ensures Map(s, f)[..|s| - 1] == Map(s[..|s| - 1], f) && Map(s, f)[|s| - 1] == f(s[|s| - 1])
  {
    MapLength(s[..|s| - 1], f);
  }

  // The clusters of `cs` whose ids are not in `ids`.
  function Unmatched(cs: seq<Cluster>, ids: set<int>): seq<Cluster> {
    if cs == [] then []
    else
      var rest := Unmatched(cs[..|cs| - 1], ids);
      if cs[|cs| - 1].id in ids then rest else rest + [cs[|cs| - 1]]
  }

  function Events(runA: seq<Cluster>, runB: seq<Cluster>): seq<Event> {
    var m := Match(runA, runB);
    Map(m.pairs, Change) + Map(Unmatched(runA, m.a), Resolution) + Map(Unmatched(runB, m.b), Emergence)
  }

  // The clusters of run A, and of run B, that events speak of, each as often as it is mentioned.
  function Befores(es: seq<Event>): multiset<Cluster> {
    if es == [] then multiset{} else Befores(es[..|es| - 1]) + Mention(es[|es| - 1].before)
  }

  function Afters(es: seq<Event>): multiset<Cluster> {
    if es == [] then multiset{} else Afters(es[..|es| - 1]) + Mention(es[|es| - 1].after)
  }

  function Mention(c: Option<Cluster>): multiset<Cluster> {
    if c.Some? then multiset{c.value} else multiset{}
  }

  lemma MentionsSnoc(es: seq<Event>, e: Event)
    ensures Befores(es + [e]) == Befores(es) + Mention(e.before)
    ensures Afters(es + [e]) == Afters(es) + Mention(e.after)
  {
    assert (es + [e])[..|es|] == es;
  }

  function Firsts(pairs: seq<Pair>): seq<Cluster> {
    if pairs == [] then [] else Firsts(pairs[..|pairs| - 1]) + [pairs[|pairs| - 1].before]
  }

  function Seconds(pairs: seq<Pair>): seq<Cluster> {
    if pairs == [] then [] else Seconds(pairs[..|pairs| - 1]) + [pairs[|pairs| - 1].after]
  }

  lemma {:induction false} BeforesConcat(a: seq<Event>, b: seq<Event>)
    ensures Befores(a + b) == Befores(a) + Befores(b)
  {
    if b == [] {
      assert a + b == a;
    } else {
      var init := b[..|b| - 1];
      BeforesConcat(a, init);
      Sequences.InitOfConcat(a, b);
    }
  }

  lemma {:induction false} AftersConcat(a: seq<Event>, b: seq<Event>)
    ensures Afters(a + b) == Afters(a) + Afters(b)
  {
    if b == [] {
      assert a + b == a;
    } else {
      var init := b[..|b| - 1];
      AftersConcat(a, init);
      Sequences.InitOfConcat(a, b);
    }
  }

  lemma {:induction false} ChangesMention(pairs: seq<Pair>)
    ensures Befores(Map(pairs, Change)) == multiset(Firsts(pairs))
    ensures Afters(Map(pairs, Change)) == multiset(Seconds(pairs))
    ensures |Map(pairs, Change)| == |pairs|
  {
    if pairs != [] {
      var init, p := pairs[..|pairs| - 1], pairs[|pairs| - 1];
      ChangesMention(init);
      MapInit(pairs, Change);
    }
  }

  lemma {:induction false} ResolutionsMention(cs: seq<Cluster>)
    ensures Befores(Map(cs, Resolution)) == multiset(cs)
    ensures Afters(Map(cs, Resolution)) == multiset{}
    ensures |Map(cs, Resolution)| == |cs|
  {
    if cs != [] {
      var init, c := cs[..|cs| - 1], cs[|cs| - 1];
      ResolutionsMention(init);
      MapInit(cs, Resolution);
      Sequences.MultisetOfLast(cs);
    }
  }

  lemma {:induction false} EmergencesMention(cs: seq<Cluster>)
    ensures Befores(Map(cs, Emergence)) == multiset{}
    ensures Afters(Map(cs, Emergence)) == multiset(cs)
    ensures |Map(cs, Emergence)| == |cs|
  {
    if cs != [] {
      var init, c := cs[..|cs| - 1], cs[|cs| - 1];
      EmergencesMention(init);
      MapInit(cs, Emergence);
      Sequences.MultisetOfLast(cs);
    }
  }

  lemma {:induction false} UnmatchedIgnores(cs: seq<Cluster>, ids: set<int>, id: int)
    requires id !in Ids(cs)
    ensures Unmatched(cs, ids + {id}) == Unmatched(cs, ids)
  {
    if cs != [] {
      assert cs[|cs| - 1].id in Ids(cs);
      assert Ids(cs[..|cs| - 1]) <= Ids(cs);
      UnmatchedIgnores(cs[..|cs| - 1], ids, id);
    }
  }

  // Matching one more cluster of a run with distinct ids takes exactly that one from the rest.
  lemma {:induction false} UnmatchedLosesOne(cs: seq<Cluster>, ids: set<int>, c: Cluster)
    requires DistinctIds(cs) && c in cs && c.id !in ids
    ensures multiset(Unmatched(cs, ids + {c.id})) + multiset{c} == multiset(Unmatched(cs, ids))
  {
    var init, last := cs[..|cs| - 1], cs[|cs| - 1];
    LastIdIsNew(cs);
    if last.id == c.id {
      assert c !in init;
      assert last == c;
      UnmatchedIgnores(init, ids, c.id);
    } else {
      assert c in init;
      UnmatchedLosesOne(init, ids, c);
    }
  }

  lemma UnmatchedSnoc(cs: seq<Cluster>, c: Cluster, ids: set<int>)
    ensures Unmatched(cs + [c], ids) == Unmatched(cs, ids) + if c.id in ids then [] else [c]
  {
    assert (cs + [c])[..|cs|] == cs;
  }

  lemma FirstsSnoc(pairs: seq<Pair>, p: Pair)
    ensures Firsts(pairs + [p]) == Firsts(pairs) + [p.before]
  {
    assert (pairs + [p])[..|pairs|] == pairs;
  }

  // Matching one more cluster of run A, or leaving it, keeps the partition.
  lemma TakeKeepsPartition(m: Matching, init: seq<Cluster>, ca: Cluster, best: Option<Cluster>)
    requires multiset(Firsts(m.pairs)) + multiset(Unmatched(init, m.a)) == multiset(init)
    requires ca.id !in m.a && ca.id !in Ids(init)
    ensures var m' := Take(m, ca, best);
            multiset(Firsts(m'.pairs)) + multiset(Unmatched(init + [ca], m'.a)) == multiset(init + [ca])
  {
    UnmatchedSnoc(init, ca, Take(m, ca, best).a);
    if best.Some? {
      FirstsSnoc(m.pairs, Pair(ca, best.value));
      UnmatchedIgnores(init, m.a, ca.id);
    }
  }

  lemma {:induction false} FirstsPartition(runA: seq<Cluster>, runB: seq<Cluster>)
    requires DistinctIds(runA)
    ensures var m := Match(runA, runB);
            multiset(Firsts(m.pairs)) + multiset(Unmatched(runA, m.a)) == multiset(runA)
  {
    if runA != [] {
      var init, ca := runA[..|runA| - 1], runA[|runA| - 1];
      var m := Match(init, runB);
      LastIdIsNew(runA);
      FirstsPartition(init, runB);
      MatchedIds(init, runB);
      assert init + [ca] == runA;
      TakeKeepsPartition(m, init, ca, Scan(ca.tokens, runB, m.b).0);
      assert Match(runA, runB) == Take(m, ca, Scan(ca.tokens, runB, m.b).0);
    }
  }

  lemma {:induction false} NothingMatched(cs: seq<Cluster>)
    ensures Unmatched(cs, {}) == cs
  {
    if cs != [] {
      NothingMatched(cs[..|cs| - 1]);
    }
  }

  lemma {:induction false} SecondsPartition(runA: seq<Cluster>, runB: seq<Cluster>)
    requires DistinctIds(runB)
    ensures var m := Match(runA, runB);
            multiset(Seconds(m.pairs)) + multiset(Unmatched(runB, m.b)) == multiset(runB)
  {
    if runA == [] {
      NothingMatched(runB);
    } else {
      var init, ca := runA[..|runA| - 1], runA[|runA| - 1];
      var m := Match(init, runB);
      SecondsPartition(init, runB);
      ScanFindsTheBest(ca, runB, m.b);
      var best := Scan(ca.tokens, runB, m.b).0;
      if best.Some? {
        UnmatchedLosesOne(runB, m.b, best.value);
      }
    }
  }

  lemma {:induction false} PairCounts(pairs: seq<Pair>)
    ensures |Firsts(pairs)| == |pairs| == |Seconds(pairs)|
  {
    if pairs != [] {
      PairCounts(pairs[..|pairs| - 1]);
    }
  }

  // PARTITION: with distinct ids in each run, every cluster of either run is in exactly one
  // event, so there are as many events as clusters less one for each pair.
  lemma EveryClusterHasOneEvent(runA: seq<Cluster>, runB: seq<Cluster>)
    requires DistinctIds(runA) && DistinctIds(runB)
    ensures Befores(Events(runA, runB)) == multiset(runA)
    ensures Afters(Events(runA, runB)) == multiset(runB)
    ensures |Events(runA, runB)| == |runA| + |runB| - |Match(runA, runB).pairs|
  {
    var m := Match(runA, runB);
    var goneA, newB := Unmatched(runA, m.a), Unmatched(runB, m.b);
    BeforesConcat(Map(m.pairs, Change) + Map(goneA, Resolution), Map(newB, Emergence));
    BeforesConcat(Map(m.pairs, Change), Map(goneA, Resolution));
    AftersConcat(Map(m.pairs, Change) + Map(goneA, Resolution), Map(newB, Emergence));
    AftersConcat(Map(m.pairs, Change), Map(goneA, Resolution));
    ChangesMention(m.pairs);
    ResolutionsMention(goneA);
    EmergencesMention(newB);
    FirstsPartition(runA, runB);
    SecondsPartition(runA, runB);
    PairCounts(m.pairs);
    assert |multiset(Firsts(m.pairs)) + multiset(goneA)| == |multiset(runA)|;
    assert |multiset(Seconds(m.pairs)) + multiset(newB)| == |multiset(runB)|;
  }

  // ---------------------------------------------------------------- order and counts

  function SeverityRank(s: Severity): nat {
    match s case Critical => 0 case High => 1 case Medium => 2 case Low => 3
  }

  function KindRank(k: Kind): nat {
    match k
    case Escalated => 0
    case Emerged => 1
    case AnomalySpike => 2
    case VolumeSurge => 3
    case Resolved => 4
    case DeEscalated => 5
    case VolumeDrop => 6
    case Stable => 7
  }

  // The order of the pair (severity rank, kind rank).
  predicate NotAfter(d: Event, e: Event) {
    SeverityRank(d.severity) < SeverityRank(e.severity)
    || (d.severity == e.severity && KindRank(d.kind) <= KindRank(e.kind))
  }

  function Sort(es: seq<Event>): seq<Event> {
    Sorting.Sort(es, NotAfter)
  }

  function Insert(es: seq<Event>, e: Event): seq<Event> {
    Sorting.Insert(es, e, NotAfter)
  }

  ghost predicate Ordered(es: seq<Event>) {
    Sorting.Ordered(es, NotAfter)
  }

  lemma SortContent(es: seq<Event>)
    ensures multiset(Sort(es)) == multiset(es) && Ordered(Sort(es))
  {
    Sorting.SortContent(es, NotAfter);
    assert Sorting.Preorder(NotAfter);
    Sorting.SortIsOrdered(es, NotAfter);
  }

  // Sorting is stable: events of equal rank keep the order they were found in.
  function OfRank(es: seq<Event>, s: Severity, k: Kind): seq<Event> {
    Sorting.Where(es, (e: Event) => e.severity == s && e.kind == k)
  }

  lemma SortIsStable(es: seq<Event>, s: Severity, k: Kind)
    ensures OfRank(Sort(es), s, k) == OfRank(es, s, k)
  {
    Sorting.SortIsStable(es, NotAfter, (e: Event) => e.severity == s && e.kind == k);
  }

  lemma {:induction false} InsertBefores(es: seq<Event>, e: Event)
    ensures Befores(Insert(es, e)) == Befores(es) + Mention(e.before)
  {
    if es == [] || NotAfter(es[|es| - 1], e) {
      MentionsSnoc(es, e);
    } else {
      var init, last := es[..|es| - 1], es[|es| - 1];
      InsertBefores(init, e);
      assert Insert(es, e) == Insert(init, e) + [last];
      MentionsSnoc(Insert(init, e), last);
    }
  }

  lemma {:induction false} InsertAfters(es: seq<Event>, e: Event)
    ensures Afters(Insert(es, e)) == Afters(es) + Mention(e.after)
  {
    if es == [] || NotAfter(es[|es| - 1], e) {
      MentionsSnoc(es, e);
    } else {
      var init, last := es[..|es| - 1], es[|es| - 1];
      InsertAfters(init, e);
      assert Insert(es, e) == Insert(init, e) + [last];
      MentionsSnoc(Insert(init, e), last);
    }
  }

  lemma {:induction false} SortMentions(es: seq<Event>)
    ensures Befores(Sort(es)) == Befores(es) && Afters(Sort(es)) == Afters(es)
  {
    if es != [] {
      SortMentions(es[..|es| - 1]);
      InsertBefores(Sort(es[..|es| - 1]), es[|es| - 1]);
      InsertAfters(Sort(es[..|es| - 1]), es[|es| - 1]);
    }
  }

  lemma SortedReportIsThePartition(runA: seq<Cluster>, runB: seq<Cluster>)
    requires DistinctIds(runA) && DistinctIds(runB)
    ensures var es := Sort(Events(runA, runB));
            && Ordered(es)
            && Befores(es) == multiset(runA) && Afters(es) == multiset(runB)
            && |es| == |runA| + |runB| - |Match(runA, runB).pairs|
  {
    var es := Events(runA, runB);
    EveryClusterHasOneEvent(runA, runB);
    SortContent(es);
    SortMentions(es);
    assert |multiset(Sort(es))| == |multiset(es)|;
  }

  // ---------------------------------------------------------------- the counts table

  function CountOf(es: seq<Event>, kind: Kind): nat {
    if es == [] then 0 else CountOf(es[..|es| - 1], kind) + if es[|es| - 1].kind == kind then 1 else 0
  }

  datatype Counts = Counts(emerged: nat, resolved: nat, escalated: nat, deEscalated: nat,
                           surges: nat, drops: nat, spikes: nat, stable: int)

  // `to_dict`: the stable events are whatever the other seven kinds leave over.
  function CountsOf(es: seq<Event>): Counts {
    var emerged, resolved := CountOf(es, Emerged), CountOf(es, Resolved);
    var escalated, deEscalated := CountOf(es, Escalated), CountOf(es, DeEscalated);
    var surges, drops, spikes := CountOf(es, VolumeSurge), CountOf(es, VolumeDrop), CountOf(es, AnomalySpike);
    Counts(emerged, resolved, escalated, deEscalated, surges, drops, spikes,
           |es| - emerged - resolved - escalated - deEscalated - surges - drops - spikes)
  }

  lemma {:induction false} StableIsWhatIsLeft(es: seq<Event>)
    ensures CountsOf(es).stable == CountOf(es, Stable)
  {
    if es != [] {
      StableIsWhatIsLeft(es[..|es| - 1]);
    }
  }

  lemma {:induction false} CountConcat(a: seq<Event>, b: seq<Event>, kind: Kind)
    ensures CountOf(a + b, kind) == CountOf(a, kind) + CountOf(b, kind)
  {
    if b == [] {
      assert a + b == a;
    } else {
      var init := b[..|b| - 1];
      CountConcat(a, init, kind);
      assert a + b == (a + init) + [b[|b| - 1]];
      CountSnoc(a + init, b[|b| - 1], kind);
    }
  }

  lemma CountSnoc(es: seq<Event>, e: Event, kind: Kind)
    ensures CountOf(es + [e], kind) == CountOf(es, kind) + if e.kind == kind then 1 else 0
  {
    assert (es + [e])[..|es|] == es;
  }

  lemma {:induction false} CountPermutes(es: seq<Event>, kind: Kind)
    ensures CountOf(Sort(es), kind) == CountOf(es, kind)
  {
    if es != [] {
      var init, e := es[..|es| - 1], es[|es| - 1];
      CountPermutes(init, kind);
      InsertCounts(Sort(init), e, kind);
    }
  }

  lemma {:induction false} InsertCounts(es: seq<Event>, e: Event, kind: Kind)
    ensures CountOf(Insert(es, e), kind) == CountOf(es, kind) + if e.kind == kind then 1 else 0
  {
    if es == [] || NotAfter(es[|es| - 1], e) {
      CountSnoc(es, e, kind);
    } else {
      var init, last := es[..|es| - 1], es[|es| - 1];
      InsertCounts(init, e, kind);
      CountSnoc(Insert(init, e), last, kind);
    }
  }

  lemma {:induction false} CountChanges(pairs: seq<Pair>)
    ensures CountOf(Map(pairs, Change), Emerged) == 0 == CountOf(Map(pairs, Change), Resolved)
  {
    if pairs != [] {
      var init, p := pairs[..|pairs| - 1], pairs[|pairs| - 1];
      CountChanges(init);
      CountSnoc(Map(init, Change), Change(p), Emerged);
      CountSnoc(Map(init, Change), Change(p), Resolved);
    }
  }

  lemma {:induction false} CountAll<T>(s: seq<T>, f: T -> Event, kind: Kind, k: Kind)
    requires forall x: T :: f(x).kind == kind
    ensures CountOf(Map(s, f), k) == if k == kind then |s| else 0
  {
    if s != [] {
      CountAll(s[..|s| - 1], f, kind, k);
      CountSnoc(Map(s[..|s| - 1], f), f(s[|s| - 1]), k);
    }
  }

  // The table of a report: the unmatched clusters of B have emerged, those of A are resolved, and
  // the other six entries share the pairs.
  lemma CountsOfAReport(runA: seq<Cluster>, runB: seq<Cluster>)
    requires DistinctIds(runA) && DistinctIds(runB)
    ensures var m, c := Match(runA, runB), CountsOf(Sort(Events(runA, runB)));
            && c.emerged == |runB| - |m.pairs|
            && c.resolved == |runA| - |m.pairs|
            && c.escalated + c.deEscalated + c.surges + c.drops + c.spikes + c.stable == |m.pairs|
            && c.stable >= 0
  {
    var m := Match(runA, runB);
    var es := Events(runA, runB);
    var goneA, newB := Unmatched(runA, m.a), Unmatched(runB, m.b);
    SortedReportIsThePartition(runA, runB);
    StableIsWhatIsLeft(Sort(es));
    forall k: Kind ensures CountOf(Sort(es), k)
      == CountOf(Map(m.pairs, Change), k) + CountOf(Map(goneA, Resolution), k) + CountOf(Map(newB, Emergence), k)
    {
      CountPermutes(es, k);
      CountConcat(Map(m.pairs, Change) + Map(goneA, Resolution), Map(newB, Emergence), k);
      CountConcat(Map(m.pairs, Change), Map(goneA, Resolution), k);
    }
    CountChanges(m.pairs);
    forall k: Kind
      ensures CountOf(Map(goneA, Resolution), k) == if k == Resolved then |goneA| else 0
      ensures CountOf(Map(newB, Emergence), k) == if k == Emerged then |newB| else 0
    {
      CountAll(goneA, Resolution, Resolved, k);
      CountAll(newB, Emergence, Emerged, k);
    }
    FirstsPartition(runA, runB);
    SecondsPartition(runA, runB);
    PairCounts(m.pairs);
    assert |multiset(Firsts(m.pairs)) + multiset(goneA)| == |multiset(runA)|;
    assert |multiset(Seconds(m.pairs)) + multiset(newB)| == |multiset(runB)|;
  }

  // ---------------------------------------------------------------- a run against itself

  lemma {:induction false} ScanFindsItself(run: seq<Cluster>, i: nat, k: nat)
    requires DistinctIds(run) && i < |run| && k <= |run|
    ensures Scan(run[i].tokens, run[..k], Ids(run[..i]))
         == if k <= i then (None, MATCH_THRESHOLD) else (Some(run[i]), 1.0)
  {
    if k > 0 {
      var cb := run[k - 1];
      ScanFindsItself(run, i, k - 1);
      assert run[..k][..k - 1] == run[..k - 1];
      JaccardRange(run[i].tokens, cb.tokens);
      if k <= i {
        assert cb in run[..i];
      } else if k == i + 1 {
        LastIdIsNew(run[..k]);
        assert DistinctIds(run[..k]);
      }
    }
  }

  function Mirror(c: Cluster): Pair { Pair(c, c) }

  lemma {:induction false} PrefixMatchesItself(run: seq<Cluster>, i: nat)
    requires DistinctIds(run) && i <= |run|
    ensures Match(run[..i], run) == Matching(Map(run[..i], Mirror), Ids(run[..i]), Ids(run[..i]))
  {
    if i > 0 {
      PrefixMatchesItself(run, i - 1);
      ScanFindsItself(run, i - 1, |run|);
      assert run[..|run|] == run;
      assert run[..i] == run[..i - 1] + [run[i - 1]];
      OneMoreMirror(run[..i - 1], run[i - 1], run);
    }
  }

  lemma OneMoreMirror(init: seq<Cluster>, c: Cluster, run: seq<Cluster>)
    requires Match(init, run) == Matching(Map(init, Mirror), Ids(init), Ids(init))
    requires Scan(c.tokens, run, Ids(init)).0 == Some(c)
    ensures Match(init + [c], run) == Matching(Map(init + [c], Mirror), Ids(init + [c]), Ids(init + [c]))
  {
    assert (init + [c])[..|init|] == init;
    assert Ids(init + [c]) == Ids(init) + {c.id};
  }

  lemma {:induction false} AllMatched(cs: seq<Cluster>, ids: set<int>)
    requires Ids(cs) <= ids
    ensures Unmatched(cs, ids) == []
  {
    if cs != [] {
      assert cs[|cs| - 1].id in Ids(cs) && Ids(cs[..|cs| - 1]) <= Ids(cs);
      AllMatched(cs[..|cs| - 1], ids);
    }
  }

  lemma {:induction false} MirrorsAreStable(cs: seq<Cluster>)
    ensures forall e <- Map(Map(cs, Mirror), Change) :: e.kind == Stable && e.before == e.after
  {
    if cs != [] {
      var init, c := cs[..|cs| - 1], cs[|cs| - 1];
      MirrorsAreStable(init);
      MapInit(cs, Mirror);
      assert DeltaVolume(c, c) == 0.0;
      assert Change(Mirror(c)).kind == Stable;
    }
  }

  // SELF-COMPARISON: a run with distinct ids, several of them perhaps with the same tokens, is
  // matched cluster by cluster with itself: every event is stable and the health does not move.
  lemma SelfComparisonIsSilent(run: seq<Cluster>)
    requires DistinctIds(run)
    ensures Match(run, run).pairs == Map(run, Mirror)
    ensures forall e <- Sort(Events(run, run)) :: e.kind == Stable && e.before == e.after
    ensures |Sort(Events(run, run))| == |run|
    ensures CompareSpec(run, run).healthDelta == 0.0
  {
    PrefixMatchesItself(run, |run|);
    assert run[..|run|] == run;
    AllMatched(run, Ids(run));
    MirrorsAreStable(run);
    SortContent(Events(run, run));
    assert Events(run, run) == Map(Map(run, Mirror), Change);
    forall e | e in Sort(Events(run, run)) ensures e in Events(run, run) {
      assert e in multiset(Sort(Events(run, run)));
    }
    EveryClusterHasOneEvent(run, run);
    assert |multiset(Sort(Events(run, run)))| == |multiset(Events(run, run))|;
    MapLength(run, Mirror);
  }

  // ---------------------------------------------------------------- health

  function Contribution(c: Cluster): real {
    Rank(c.priority, 3) as real / 3.0 + (1.0 - Capped(c.anomaly))
  }

  function Total(cs: seq<Cluster>): real {
    if cs == [] then 0.0 else Total(cs[..|cs| - 1]) + Contribution(cs[|cs| - 1])
  }

  function HealthScore(cs: seq<Cluster>): real {
    if cs == [] then 1.0 else Total(cs) / (2 * |cs|) as real
  }

  function Capped(anomaly: real): real {
    if anomaly < 1.0 then anomaly else 1.0
  }

  // What keeps a cluster's share of the score at most 1: its rank is made up for by its anomaly.
  predicate Ranked(c: Cluster) {
    Rank(c.priority, 3) as real / 3.0 <= 1.0 + Capped(c.anomaly)
  }

  // For scores that are not negative only the priority "unknown" is in question.
  lemma RankedForScores(c: Cluster)
    requires c.anomaly >= 0.0
    ensures Ranked(c) <==> (c.priority == "unknown" ==> c.anomaly >= 1.0 / 3.0)
  {
    assert Rank(c.priority, 3) == 4 <==> c.priority == "unknown";
  }

  lemma {:induction false} TotalRange(cs: seq<Cluster>)
    ensures Total(cs) >= 0.0
    ensures (forall c <- cs :: Ranked(c)) ==> Total(cs) <= 2.0 * |cs| as real
  {
    if cs != [] {
      var init, c := cs[..|cs| - 1], cs[|cs| - 1];
      TotalRange(init);
      assert Ranked(c) ==> 0.0 <= Contribution(c) <= 2.0;
      assert (forall d <- cs :: Ranked(d)) ==> Ranked(c) && forall d <- init :: Ranked(d);
    }
  }

  lemma QuotientRange(total: real, n: nat)
    requires total >= 0.0 && n > 0
    ensures total / (2 * n) as real >= 0.0
    ensures total / (2 * n) as real <= 1.0 <==> total <= 2.0 * n as real
  {
    var d := (2 * n) as real;
    var q := total / d;
    assert d == 2.0 * n as real && q * d == total;
    SignOfProduct(q, d);
    SignOfProduct(1.0 - q, d);
    assert (1.0 - q) * d == d - total;
  }

  // No run scores below 0; runs of ranked clusters score at most 1, so the change between two of
  // them is within -1..1.
  lemma HealthIsAFraction(cs: seq<Cluster>)
    ensures HealthScore(cs) >= 0.0
    ensures (forall c <- cs :: Ranked(c)) ==> HealthScore(cs) <= 1.0
  {
    if cs != [] {
      TotalRange(cs);
      QuotientRange(Total(cs), |cs|);
    }
  }

  // A cluster is by itself a run that scores at most 1 exactly when it is `Ranked`.
  lemma LoneClusterIsRankedIff(c: Cluster)
    ensures HealthScore([c]) <= 1.0 <==> Ranked(c)
  {
    assert [c][..0] == [];
    assert Total([c]) == Contribution(c);
    QuotientRange(Contribution(c), 1);
  }

  ghost predicate Healthy(clusters: set<Cluster>) {
    forall run: seq<Cluster> :: (forall c <- run :: c in clusters) ==> 0.0 <= HealthScore(run) <= 1.0
  }

  // HEALTH: the score of every run over a set of clusters is a fraction exactly when each of them
  // is ranked: for anomaly scores that are not negative, when it has a priority from P0 to P3, or
  // any other but "unknown", or an anomaly score of at least a third.
  lemma HealthIsAFractionIff(clusters: set<Cluster>)
    ensures Healthy(clusters) <==> forall c <- clusters :: Ranked(c)
  {
    if forall c <- clusters :: Ranked(c) {
      forall run: seq<Cluster> | forall c <- run :: c in clusters ensures 0.0 <= HealthScore(run) <= 1.0 {
        HealthIsAFraction(run);
      }
    }
    if Healthy(clusters) {
      forall c | c in clusters ensures Ranked(c) {
        assert forall d <- [c] :: d in clusters;
        assert 0.0 <= HealthScore([c]) <= 1.0;
        LoneClusterIsRankedIff(c);
      }
    }
  }

  lemma UnknownPriorityScoresAboveOne()
    ensures HealthScore([Cluster(0, {}, 1, 0.0, "unknown")]) > 1.0
  {
    LoneClusterIsRankedIff(Cluster(0, {}, 1, 0.0, "unknown"));
    RankedForScores(Cluster(0, {}, 1, 0.0, "unknown"));
  }

  // ---------------------------------------------------------------- the detector

  datatype Report = Report(clustersA: nat, clustersB: nat, matched: nat, events: seq<Event>, healthDelta: real)

  function CompareSpec(runA: seq<Cluster>, runB: seq<Cluster>): Report {
    Report(|runA|, |runB|, |Match(runA, runB).pairs|, Sort(Events(runA, runB)), HealthScore(runB) - HealthScore(runA))
  }

  method FindBest(ca: Cluster, runB: seq<Cluster>, matchedB: set<int>) returns (best: Option<Cluster>)
    ensures best == Scan(ca.tokens, runB, matchedB).0
    ensures best.Some? ==> Best(ca, best.value, runB, matchedB)
    ensures best.None? ==> NoneLeft(ca.tokens, runB, matchedB)
  {
    var bestSim := MATCH_THRESHOLD;
    best := None;
    for j := 0 to |runB|
      invariant (best, bestSim) == Scan(ca.tokens, runB[..j], matchedB)
    {
      assert runB[..j + 1][..j] == runB[..j];
      if runB[j].id in matchedB {
        continue;
      }
      var sim := Jaccard(ca.tokens, runB[j].tokens);
      if sim > bestSim {
        bestSim, best := sim, Some(runB[j]);
      }
    }
    assert runB[..|runB|] == runB;
    ScanFindsTheBest(ca, runB, matchedB);
  }

  method MatchRuns(runA: seq<Cluster>, runB: seq<Cluster>)
    returns (pairs: seq<Pair>, matchedA: set<int>, matchedB: set<int>)
    ensures Matching(pairs, matchedA, matchedB) == Match(runA, runB)
    ensures GreedyPairs(pairs, runA, runB) && Maximal(Match(runA, runB), runA, runB)
  {
    pairs, matchedA, matchedB := [], {}, {};
    for i := 0 to |runA|
      invariant Matching(pairs, matchedA, matchedB) == Match(runA[..i], runB)
    {
      assert runA[..i + 1][..i] == runA[..i];
      var best := FindBest(runA[i], runB, matchedB);
      if best.Some? {
        pairs := pairs + [Pair(runA[i], best.value)];
        matchedB := matchedB + {best.value.id};
        matchedA := matchedA + {runA[i].id};
      }
    }
    assert runA[..|runA|] == runA;
    PairsAreGreedy(runA, runB);
    MatchingIsMaximal(runA, runB);
  }

  // The body of the loop below: the kind of one pair, and the event it gives.
  method ChangeEvent(p: Pair) returns (event: Event)
    ensures event == Change(p)
  {
    var ca, cb := p.before, p.after;
    var deltaVolume := (cb.size - ca.size) as real / (if ca.size < 1 then 1 else ca.size) as real;
    var deltaAnomaly := cb.anomaly - ca.anomaly;
    var rankA, rankB := Rank(ca.priority, 4), Rank(cb.priority, 4);
    var kind := Stable;
    if rankB < rankA {
      kind := Escalated;
    } else if rankB > rankA {
      kind := DeEscalated;
    } else if deltaVolume >= 0.5 {
      kind := VolumeSurge;
    } else if deltaVolume <= -0.5 {
      kind := VolumeDrop;
    } else if deltaAnomaly >= 0.15 {
      kind := AnomalySpike;
    }
    event := Event(kind, Some(ca), Some(cb), deltaVolume, deltaAnomaly, ca.priority, cb.priority,
                   SeverityOf(kind, ca.priority, cb.priority));
  }

  method ChangeEvents(pairs: seq<Pair>) returns (events: seq<Event>)
    ensures events == Map(pairs, Change)
  {
    events := [];
    for i := 0 to |pairs|
      invariant events == Map(pairs[..i], Change)
    {
      assert pairs[..i + 1][..i] == pairs[..i];
      var event := ChangeEvent(pairs[i]);
      events := events + [event];
    }
    assert pairs[..|pairs|] == pairs;
  }

  method Leftovers(cs: seq<Cluster>, matched: set<int>, f: Cluster -> Event) returns (events: seq<Event>)
    ensures events == Map(Unmatched(cs, matched), f)
  {
    events := [];
    ghost var left := [];
    for i := 0 to |cs|
      invariant left == Unmatched(cs[..i], matched) && events == Map(left, f)
    {
      assert cs[..i + 1][..i] == cs[..i];
      if cs[i].id !in matched {
        assert (left + [cs[i]])[..|left|] == left;
        events := events + [f(cs[i])];
        left := left + [cs[i]];
      }
    }
    assert cs[..|cs|] == cs;
  }

  method Compare(runA: seq<Cluster>, runB: seq<Cluster>) returns (report: Report)
    ensures report == CompareSpec(runA, runB)
  {
    var pairs, matchedA, matchedB := MatchRuns(runA, runB);
    var changes := ChangeEvents(pairs);
    var resolved := Leftovers(runA, matchedA, Resolution);
    var emerged := Leftovers(runB, matchedB, Emergence);
    var events := Sort(changes + resolved + emerged);
    report := Report(|runA|, |runB|, |pairs|, events, HealthScore(runB) - HealthScore(runA));
  }
}
