/**
  Building clusters from labels: `_build_clusters` for any labelling whatever, sizes taken from the
  deduplicator's counts.  Centroids, representatives and projections are left out.
*/
module Clustering {
  import opened Deduplication
  import Sequences
  import Sorting

  datatype Cluster = Cluster(id: int, size: nat, templates: seq<string>)

  // The templates whose label is `l`, in order.
  function OfLabel(labels: seq<int>, templates: seq<string>, l: int): seq<string>
    requires |labels| == |templates|
  {
    if labels == [] then []
    else
      var n := |labels| - 1;
      var rest := OfLabel(labels[..n], templates[..n], l);
      if labels[n] == l then rest + [templates[n]] else rest
  }

  function ClusterOf(labels: seq<int>, templates: seq<string>, count: string -> nat, l: int): Cluster
    requires |labels| == |templates|
  {
    var ts := OfLabel(labels, templates, l);
    Cluster(l, Sum(ts, count), ts)
  }

  function Members(cs: seq<Cluster>): multiset<string> {
    if cs == [] then multiset{} else Members(cs[..|cs| - 1]) + multiset(cs[|cs| - 1].templates)
  }

  function TotalSize(cs: seq<Cluster>): nat {
    if cs == [] then 0 else TotalSize(cs[..|cs| - 1]) + cs[|cs| - 1].size
  }

  function Labels(cs: seq<Cluster>): set<int> {
    set c | c in cs :: c.id
  }

  ghost predicate DistinctLabels(cs: seq<Cluster>) {
    forall i, j :: 0 <= i < j < |cs| ==> cs[i].id != cs[j].id
  }

  // Each cluster is the cluster of its label, and no two have the same label.
  ghost predicate Built(cs: seq<Cluster>, labels: seq<int>, templates: seq<string>, count: string -> nat)
    requires |labels| == |templates|
  {
    DistinctLabels(cs) && forall c <- cs :: c == ClusterOf(labels, templates, count, c.id)
  }

  lemma SumSnoc(ts: seq<string>, t: string, f: string -> nat)
    ensures Sum(ts + [t], f) == Sum(ts, f) + f(t)
  {
    assert (ts + [t])[..|ts|] == ts;
  }

  // `c` is `c'` with template `t` more when `hit`.
  ghost predicate Grown(c: Cluster, c': Cluster, hit: bool, t: string, count: string -> nat) {
    && c.id == c'.id
    && multiset(c.templates) == multiset(c'.templates) + (if hit then multiset{t} else multiset{})
    && c.size == c'.size + (if hit then count(t) else 0)
  }

  lemma ClusterGrows(labels: seq<int>, templates: seq<string>, count: string -> nat, l: int)
    requires |labels| == |templates| && labels != []
    ensures var n := |labels| - 1;
            Grown(ClusterOf(labels, templates, count, l), ClusterOf(labels[..n], templates[..n], count, l),
                  labels[n] == l, templates[n], count)
  {
    var n := |labels| - 1;
    SumSnoc(OfLabel(labels[..n], templates[..n], l), templates[n], count);
  }

  // What one more template adds to clusters of distinct labels.
  ghost predicate AllGrown(cs: seq<Cluster>, cs': seq<Cluster>, l: int, t: string, count: string -> nat) {
    |cs| == |cs'| && forall i :: 0 <= i < |cs| ==> Grown(cs[i], cs'[i], cs[i].id == l, t, count)
  }

  lemma LabelsSnoc(cs: seq<Cluster>)
    requires cs != [] && DistinctLabels(cs)
    ensures var n := |cs| - 1;
            DistinctLabels(cs[..n]) && Labels(cs) == Labels(cs[..n]) + {cs[n].id} && cs[n].id !in Labels(cs[..n])
  {
    assert cs == cs[..|cs| - 1] + [cs[|cs| - 1]];
  }

  lemma {:induction false} MembersGrow(cs: seq<Cluster>, cs': seq<Cluster>, l: int, t: string, count: string -> nat)
    requires DistinctLabels(cs) && AllGrown(cs, cs', l, t, count)
    ensures Members(cs) == Members(cs') + (if l in Labels(cs) then multiset{t} else multiset{})
  {
    if cs != [] {
      var n := |cs| - 1;
      LabelsSnoc(cs);
      MembersGrow(cs[..n], cs'[..n], l, t, count);
      assert Grown(cs[n], cs'[n], cs[n].id == l, t, count);
    }
  }

  lemma {:induction false} SizesGrow(cs: seq<Cluster>, cs': seq<Cluster>, l: int, t: string, count: string -> nat)
    requires DistinctLabels(cs) && AllGrown(cs, cs', l, t, count)
    ensures TotalSize(cs) == TotalSize(cs') + (if l in Labels(cs) then count(t) else 0)
  {
    if cs != [] {
      var n := |cs| - 1;
      LabelsSnoc(cs);
      SizesGrow(cs[..n], cs'[..n], l, t, count);
      assert Grown(cs[n], cs'[n], cs[n].id == l, t, count);
    }
  }

  function Relabel(cs: seq<Cluster>, labels: seq<int>, templates: seq<string>, count: string -> nat): seq<Cluster>
    requires |labels| == |templates|
  {
    seq(|cs|, i requires 0 <= i < |cs| => ClusterOf(labels, templates, count, cs[i].id))
  }

  lemma RelabelKeepsLabels(cs: seq<Cluster>, labels: seq<int>, templates: seq<string>, count: string -> nat)
    requires |labels| == |templates| && DistinctLabels(cs)
    ensures Labels(Relabel(cs, labels, templates, count)) == Labels(cs)
    ensures DistinctLabels(Relabel(cs, labels, templates, count))
  {
    var cs' := Relabel(cs, labels, templates, count);
    forall l ensures l in Labels(cs) <==> l in Labels(cs') {
      if l in Labels(cs) {
        var i :| 0 <= i < |cs| && cs[i].id == l;
        assert cs'[i] in cs';
      }
      if l in Labels(cs') {
        var i :| 0 <= i < |cs'| && cs'[i].id == l;
        assert cs[i] in cs;
      }
    }
  }

  lemma RelabelGrows(cs: seq<Cluster>, labels: seq<int>, templates: seq<string>, count: string -> nat, k: nat)
    requires |labels| == |templates| && 0 < k <= |labels|
    ensures AllGrown(Relabel(cs, labels[..k], templates[..k], count),
                     Relabel(cs, labels[..k - 1], templates[..k - 1], count),
                     labels[k - 1], templates[k - 1], count)
  {
    assert labels[..k][..k - 1] == labels[..k - 1] && templates[..k][..k - 1] == templates[..k - 1];
    forall i | 0 <= i < |cs|
      ensures Grown(ClusterOf(labels[..k], templates[..k], count, cs[i].id),
                    ClusterOf(labels[..k - 1], templates[..k - 1], count, cs[i].id),
                    cs[i].id == labels[k - 1], templates[k - 1], count)
    {
      ClusterGrows(labels[..k], templates[..k], count, cs[i].id);
    }
  }

  lemma {:induction false} EmptyClusters(cs: seq<Cluster>)
    requires forall c <- cs :: c.templates == [] && c.size == 0
    ensures Members(cs) == multiset{} && TotalSize(cs) == 0
  {
    if cs != [] {
      EmptyClusters(cs[..|cs| - 1]);
    }
  }

  lemma PartitionGrows(cs: seq<Cluster>, cs': seq<Cluster>, l: int, init: seq<string>, t: string, count: string -> nat)
    requires DistinctLabels(cs) && l in Labels(cs) && AllGrown(cs, cs', l, t, count)
    requires Members(cs') == multiset(init) && TotalSize(cs') == Sum(init, count)
    ensures Members(cs) == multiset(init + [t]) && TotalSize(cs) == Sum(init + [t], count)
  {
    MembersGrow(cs, cs', l, t, count);
    SizesGrow(cs, cs', l, t, count);
    SumSnoc(init, t, count);
  }

  lemma PrefixGrows(cs: seq<Cluster>, labels: seq<int>, templates: seq<string>, count: string -> nat, k: nat)
    requires |labels| == |templates| && 0 < k <= |labels| && DistinctLabels(cs) && labels[k - 1] in Labels(cs)
    requires var cs0 := Relabel(cs, labels[..k - 1], templates[..k - 1], count);
             Members(cs0) == multiset(templates[..k - 1]) && TotalSize(cs0) == Sum(templates[..k - 1], count)
    ensures var cs1, ts := Relabel(cs, labels[..k], templates[..k], count), templates[..k - 1] + [templates[k - 1]];
            Members(cs1) == multiset(ts) && TotalSize(cs1) == Sum(ts, count)
  {
    var cs0 := Relabel(cs, labels[..k - 1], templates[..k - 1], count);
    var cs1 := Relabel(cs, labels[..k], templates[..k], count);
    RelabelKeepsLabels(cs, labels[..k], templates[..k], count);
    RelabelGrows(cs, labels, templates, count, k);
    PartitionGrows(cs1, cs0, labels[k - 1], templates[..k - 1], templates[k - 1], count);
  }

  lemma {:induction false} PrefixPartition(cs: seq<Cluster>, labels: seq<int>, templates: seq<string>,
                                           count: string -> nat, k: nat)
    requires |labels| == |templates| && k <= |labels| && DistinctLabels(cs) && forall l <- labels :: l in Labels(cs)
    ensures var cs' := Relabel(cs, labels[..k], templates[..k], count);
            Members(cs') == multiset(templates[..k]) && TotalSize(cs') == Sum(templates[..k], count)
  {
    if k == 0 {
      assert labels[..0] == [] && templates[..0] == [];
      NothingLabelled(cs, count);
    } else {
      PrefixPartition(cs, labels, templates, count, k - 1);
      assert labels[k - 1] in labels;
      PrefixGrows(cs, labels, templates, count, k);
      Sequences.TakeOneMore(templates, k);
    }
  }

  lemma NothingLabelled(cs: seq<Cluster>, count: string -> nat)
    ensures Members(Relabel(cs, [], [], count)) == multiset{} && TotalSize(Relabel(cs, [], [], count)) == 0
  {
    EmptyClusters(Relabel(cs, [], [], count));
  }

  // PARTITION: clusters built for every label of any labelling hold every template exactly as
  // often as it was given, and their sizes sum to the counts of all the templates.
  lemma ClustersPartition(cs: seq<Cluster>, labels: seq<int>, templates: seq<string>, count: string -> nat)
    requires |labels| == |templates| && Built(cs, labels, templates, count)
    requires forall l <- labels :: l in Labels(cs)
    ensures Members(cs) == multiset(templates) && TotalSize(cs) == Sum(templates, count)
  {
    PrefixPartition(cs, labels, templates, count, |labels|);
    assert labels[..|labels|] == labels && templates[..|labels|] == templates;
    assert Relabel(cs, labels, templates, count) == cs;
  }

  // ---------------------------------------------------------------- largest first

  predicate NotSmaller(c: Cluster, d: Cluster) {
    c.size >= d.size
  }

  function Sort(cs: seq<Cluster>): seq<Cluster> {
    Sorting.Sort(cs, NotSmaller)
  }

  function Insert(cs: seq<Cluster>, c: Cluster): seq<Cluster> {
    Sorting.Insert(cs, c, NotSmaller)
  }

  ghost predicate Descending(cs: seq<Cluster>) {
    forall i, j :: 0 <= i < j < |cs| ==> cs[i].size >= cs[j].size
  }

  lemma ClustersSnoc(cs: seq<Cluster>, c: Cluster)
    ensures Members(cs + [c]) == Members(cs) + multiset(c.templates)
    ensures TotalSize(cs + [c]) == TotalSize(cs) + c.size
  {
    assert (cs + [c])[..|cs|] == cs;
  }

  lemma {:induction false} InsertTotals(cs: seq<Cluster>, c: Cluster)
    ensures Members(Insert(cs, c)) == Members(cs) + multiset(c.templates)
    ensures TotalSize(Insert(cs, c)) == TotalSize(cs) + c.size
  {
    if cs == [] || cs[|cs| - 1].size >= c.size {
      ClustersSnoc(cs, c);
    } else {
      var init, last := cs[..|cs| - 1], cs[|cs| - 1];
      InsertTotals(init, c);
      ClustersSnoc(Insert(init, c), last);
    }
  }

  lemma SortContent(cs: seq<Cluster>)
    ensures multiset(Sort(cs)) == multiset(cs) && Descending(Sort(cs))
  {
    Sorting.SortContent(cs, NotSmaller);
    assert Sorting.Preorder(NotSmaller);
    Sorting.SortIsOrdered(cs, NotSmaller);
    forall i, j | 0 <= i < j < |Sort(cs)| ensures Sort(cs)[i].size >= Sort(cs)[j].size {
      assert NotSmaller(Sort(cs)[i], Sort(cs)[j]);
    }
  }

  lemma {:induction false} SortTotals(cs: seq<Cluster>)
    ensures Members(Sort(cs)) == Members(cs) && TotalSize(Sort(cs)) == TotalSize(cs)
  {
    if cs != [] {
      SortTotals(cs[..|cs| - 1]);
      InsertTotals(Sort(cs[..|cs| - 1]), cs[|cs| - 1]);
    }
  }

  // ---------------------------------------------------------------- the loop over labels

  method TemplatesOf(labels: seq<int>, templates: seq<string>, l: int) returns (chosen: seq<string>)
    requires |labels| == |templates|
    ensures chosen == OfLabel(labels, templates, l)
  {
    chosen := [];
    for i := 0 to |labels|
      invariant chosen == OfLabel(labels[..i], templates[..i], l)
    {
      assert labels[..i + 1][..i] == labels[..i] && templates[..i + 1][..i] == templates[..i];
      if labels[i] == l {
        chosen := chosen + [templates[i]];
      }
    }
    assert labels[..|labels|] == labels && templates[..|templates|] == templates;
  }

  // One cluster for each label, the labels taken in any order.
  method BuildEach(labels: seq<int>, templates: seq<string>, counts: map<string, nat>) returns (clusters: seq<Cluster>)
    requires |labels| == |templates|
    ensures Built(clusters, labels, templates, CountIn(counts))
    ensures forall l :: l in Labels(clusters) <==> l in labels
  {
    var todo := set l | l in labels;
    clusters := [];
    while exists l :: l in todo
      invariant Built(clusters, labels, templates, CountIn(counts))
      invariant forall l :: l in labels <==> l in todo || l in Labels(clusters)
      invariant todo !! Labels(clusters)
      decreases |todo|
    {
      var l :| l in todo;
      var chosen := TemplatesOf(labels, templates, l);
      var c := Cluster(l, Sum(chosen, CountIn(counts)), chosen);
      OneMoreBuilt(clusters, c, labels, templates, CountIn(counts));
      clusters, todo := clusters + [c], todo - {l};
    }
  }

  lemma OneMoreBuilt(cs: seq<Cluster>, c: Cluster, labels: seq<int>, templates: seq<string>, count: string -> nat)
    requires |labels| == |templates| && Built(cs, labels, templates, count)
    requires c == ClusterOf(labels, templates, count, c.id) && c.id !in Labels(cs)
    ensures Built(cs + [c], labels, templates, count) && Labels(cs + [c]) == Labels(cs) + {c.id}
  {
    forall i | 0 <= i < |cs| ensures cs[i].id != c.id {
      assert cs[i] in cs;
    }
  }

  method BuildClusters(labels: seq<int>, templates: seq<string>, counts: map<string, nat>)
    returns (clusters: seq<Cluster>)
    requires |labels| == |templates|
    ensures Built(clusters, labels, templates, CountIn(counts))
    ensures forall l :: l in Labels(clusters) <==> l in labels
    ensures Descending(clusters)
    ensures Members(clusters) == multiset(templates)
    ensures TotalSize(clusters) == Sum(templates, CountIn(counts))
  {
    var unsorted := BuildEach(labels, templates, counts);
    clusters := Sort(unsorted);
    ClustersPartition(unsorted, labels, templates, CountIn(counts));
    SortContent(unsorted);
    SortTotals(unsorted);
    SortKeepsBuilt(unsorted, labels, templates, CountIn(counts));
  }

  lemma SortKeepsBuilt(cs: seq<Cluster>, labels: seq<int>, templates: seq<string>, count: string -> nat)
    requires |labels| == |templates| && Built(cs, labels, templates, count)
    ensures Built(Sort(cs), labels, templates, count) && Labels(Sort(cs)) == Labels(cs)
  {
    SortContent(cs);
    SortKeepsLabels(cs);
    forall c | c in Sort(cs) ensures c in cs {
      assert c in multiset(Sort(cs));
    }
  }

  lemma SortKeepsLabels(cs: seq<Cluster>)
    requires DistinctLabels(cs)
    ensures Labels(Sort(cs)) == Labels(cs) && DistinctLabels(Sort(cs))
  {
    var sorted := Sort(cs);
    SortContent(cs);
    forall c ensures c in sorted <==> c in cs {
      assert c in multiset(sorted) <==> c in multiset(cs);
    }
    LabelCount(cs);
    LabelCount(sorted);
    assert |sorted| == |multiset(sorted)| == |multiset(cs)| == |cs|;
  }

  lemma LabelsOfSnoc(cs: seq<Cluster>, c: Cluster)
    ensures Labels(cs + [c]) == Labels(cs) + {c.id}
    ensures DistinctLabels(cs + [c]) <==> DistinctLabels(cs) && c.id !in Labels(cs)
  {
    var all := cs + [c];
    forall i | 0 <= i < |cs| ensures all[i] == cs[i] && cs[i].id in Labels(cs) {
      assert cs[i] in cs;
    }
    forall d | d in cs ensures DistinctLabels(all) ==> d.id != c.id {
      var i :| 0 <= i < |cs| && cs[i] == d;
      assert all[i] == d && all[|cs|] == c;
    }
  }

  // Labels are distinct exactly when there are as many of them as clusters.
  lemma {:induction false} LabelCount(cs: seq<Cluster>)
    ensures |Labels(cs)| <= |cs|
    ensures DistinctLabels(cs) <==> |Labels(cs)| == |cs|
  {
    if cs == [] {
      assert Labels(cs) == {};
    } else {
      var init, c := cs[..|cs| - 1], cs[|cs| - 1];
      LabelCount(init);
      LabelsOfSnoc(init, c);
      assert cs == init + [c];
      if c.id in Labels(init) {
        assert Labels(init) + {c.id} == Labels(init);
      }
    }
  }

  function CountIn(counts: map<string, nat>): string -> nat {
    t => if t in counts then counts[t] else 0
  }

  // ---------------------------------------------------------------- end to end

  // LOG COUNTS: however the templates of the logs are labelled, the clusters built for them share
  // out all the logs added since the last clear, and once more those added before it that have a
  // template of now.  So they add up exactly when there are none of those, as when nothing is ever
  // cleared.
  lemma NoLogIsLost(ops: seq<Op>, cs: seq<Cluster>, labels: seq<int>)
    requires var p := After(ops);
             && |labels| == |p.order|
             && Built(cs, labels, p.order, CountIn(p.counts))
             && forall l <- labels :: l in Labels(cs)
    ensures Members(cs) == multiset(After(ops).order)
    ensures TotalSize(cs) == |Current(ops)| + Sum(After(ops).order, Times(Cleared(ops)))
    ensures TotalSize(cs) == |Current(ops)|
            <==> forall t <- After(ops).order, r <- Cleared(ops) :: KeyOf(r) != t
    ensures (forall op <- ops :: op.Add?) ==> TotalSize(cs) == |ops|
  {
    var p := After(ops);
    ClustersPartition(cs, labels, p.order, CountIn(p.counts));
    SameSum(p.order, CountIn(p.counts), Counts(p));
    CountsSplit(ops);
    NoneClearedIff(p.order, Cleared(ops));
    OnlyAdds(ops);
  }

  lemma {:induction false} SameSum(ts: seq<string>, f: string -> nat, g: string -> nat)
    requires forall t :: f(t) == g(t)
    ensures Sum(ts, f) == Sum(ts, g)
  {
    if ts != [] {
      SameSum(ts[..|ts| - 1], f, g);
    }
  }
}
