/**
  The deduplicator: records grouped by template, with a count of every template and at most the
  first hundred records of each.
*/
module Deduplication {
  import Sequences

  // `normalized` is "" when the normaliser left nothing.
  datatype Record = Record(raw: string, normalized: string)

  const KEPT := 100

  function KeyOf(r: Record): string {
    if r.normalized == "" then r.raw else r.normalized
  }

  // The fields of the deduplicator; `order` is the insertion order of `grouped`.
  datatype Pool = Pool(
    grouped: map<string, seq<Record>>,
    order: seq<string>,
    counts: map<string, nat>,
    unique: nat,
    total: nat)
  {
    function CountOf(t: string): nat {
      if t in counts then counts[t] else 0
    }

    function Group(t: string): seq<Record> {
      if t in grouped then grouped[t] else []
    }
  }

  const EMPTY := Pool(map[], [], map[], 0, 0)

  datatype Op = Add(record: Record) | Clear

  function AddTo(p: Pool, r: Record): Pool {
    var key := KeyOf(r);
    Pool(p.grouped[key := if |p.Group(key)| < KEPT then p.Group(key) + [r] else p.Group(key)],
         if key in p.grouped then p.order else p.order + [key],
         p.counts[key := p.CountOf(key) + 1],
         if key in p.grouped then p.unique else p.unique + 1,
         p.total + 1)
  }

  // `clear` leaves the template counts as they are.
  function Apply(p: Pool, op: Op): Pool {
    match op
    case Add(r) => AddTo(p, r)
    case Clear => Pool(map[], [], p.counts, 0, 0)
  }

  function After(ops: seq<Op>): Pool {
    if ops == [] then EMPTY else Apply(After(ops[..|ops| - 1]), ops[|ops| - 1])
  }

  // Every record ever added, and those added since the last clear.
  function Added(ops: seq<Op>): seq<Record> {
    if ops == [] then []
    else
      match ops[|ops| - 1]
      case Add(r) => Added(ops[..|ops| - 1]) + [r]
      case Clear => Added(ops[..|ops| - 1])
  }

  function Current(ops: seq<Op>): seq<Record> {
    if ops == [] then []
    else
      match ops[|ops| - 1]
      case Add(r) => Current(ops[..|ops| - 1]) + [r]
      case Clear => []
  }

  // The records added before the last clear.
  function Cleared(ops: seq<Op>): seq<Record> {
    if ops == [] then []
    else
      match ops[|ops| - 1]
      case Add(r) => Cleared(ops[..|ops| - 1])
      case Clear => Added(ops[..|ops| - 1])
  }

  // The records of template `t`, in order.
  function Having(rs: seq<Record>, t: string): seq<Record> {
    if rs == [] then []
    else
      var rest := Having(rs[..|rs| - 1], t);
      if KeyOf(rs[|rs| - 1]) == t then rest + [rs[|rs| - 1]] else rest
  }

  function Sum(ts: seq<string>, f: string -> nat): nat {
    if ts == [] then 0 else Sum(ts[..|ts| - 1], f) + f(ts[|ts| - 1])
  }

  function Sample(rs: seq<Record>): seq<Record> {
    if |rs| < KEPT then rs else rs[..KEPT]
  }

  ghost predicate Distinct(ts: seq<string>) {
    forall i, j :: 0 <= i < j < |ts| ==> ts[i] != ts[j]
  }

  lemma HavingSnoc(rs: seq<Record>, r: Record, t: string)
    ensures Having(rs + [r], t) == Having(rs, t) + if KeyOf(r) == t then [r] else []
  {
    assert (rs + [r])[..|rs|] == rs;
  }

  // COUNTS AND SAMPLES: after any adds and clears, a template's count is how often it was ever
  // added; its group is the first hundred of its records since the last clear; and the list of
  // templates holds each of those exactly once.
  lemma {:induction false} PoolContent(ops: seq<Op>, t: string)
    ensures var p := After(ops);
            && p.CountOf(t) == |Having(Added(ops), t)|
            && p.Group(t) == Sample(Having(Current(ops), t))
            && (t in p.grouped <==> Having(Current(ops), t) != [])
            && p.total == |Current(ops)|
  {
    if ops != [] {
      var init, op := ops[..|ops| - 1], ops[|ops| - 1];
      PoolContent(init, t);
      if op.Add? {
        HavingSnoc(Added(init), op.record, t);
        HavingSnoc(Current(init), op.record, t);
        SampleSnoc(Having(Current(init), t), op.record);
        AddToEffect(After(init), op.record, t);
      }
    }
  }

  // The normalised text of `r` is `t`, or it has none and is `t` itself.
  predicate Reads(r: Record, t: string) {
    (r.normalized == t && t != "") || (r.normalized == "" && r.raw == t)
  }

  // How often a record of template `t` was added.
  function Adds(ops: seq<Op>, t: string): nat {
    if ops == [] then 0
    else
      var last := ops[|ops| - 1];
      Adds(ops[..|ops| - 1], t) + if last.Add? && Reads(last.record, t) then 1 else 0
  }

  // TEMPLATES: records share a count and a group exactly by their normalised text, those without
  // one by their raw text.
  lemma {:induction false} CountedByText(ops: seq<Op>, t: string)
    ensures After(ops).CountOf(t) == Adds(ops, t)
    ensures forall r <- After(ops).Group(t) :: Reads(r, t)
    ensures ops != [] && ops[|ops| - 1].Add? && Reads(ops[|ops| - 1].record, t) ==> t in After(ops).grouped
  {
    if ops != [] {
      var init, op := ops[..|ops| - 1], ops[|ops| - 1];
      CountedByText(init, t);
      if op.Add? {
        AddToEffect(After(init), op.record, t);
      }
    }
  }

  lemma AddToEffect(p: Pool, r: Record, t: string)
    ensures var p', mine := AddTo(p, r), KeyOf(r) == t;
            && p'.CountOf(t) == p.CountOf(t) + (if mine then 1 else 0)
            && p'.Group(t) == (if mine && |p.Group(t)| < KEPT then p.Group(t) + [r] else p.Group(t))
            && (t in p'.grouped <==> t in p.grouped || mine)
            && p'.total == p.total + 1
  {
  }

  lemma SampleSnoc(rs: seq<Record>, r: Record)
    ensures Sample(rs + [r]) == if |Sample(rs)| < KEPT then Sample(rs) + [r] else Sample(rs)
  {
    if |rs| >= KEPT {
      assert (rs + [r])[..KEPT] == rs[..KEPT];
    } else if |rs| == KEPT - 1 {
      assert (rs + [r])[..KEPT] == rs + [r];
    }
  }

  lemma {:induction false} OrderContent(ops: seq<Op>)
    ensures var p := After(ops);
            Distinct(p.order) && |p.order| == p.unique && forall t :: t in p.order <==> t in p.grouped
  {
    if ops != [] {
      OrderContent(ops[..|ops| - 1]);
    }
  }

  lemma {:induction false} HistorySplits(ops: seq<Op>)
    ensures Added(ops) == Cleared(ops) + Current(ops)
  {
    if ops != [] {
      HistorySplits(ops[..|ops| - 1]);
    }
  }

  lemma {:induction false} HavingConcat(a: seq<Record>, b: seq<Record>, t: string)
    ensures Having(a + b, t) == Having(a, t) + Having(b, t)
  {
    if b == [] {
      assert a + b == a;
    } else {
      var init := b[..|b| - 1];
      HavingConcat(a, init, t);
      Sequences.InitOfConcat(a, b);
    }
  }

  lemma {:induction false} SumOfParts(ts: seq<string>, f: string -> nat, g: string -> nat, h: string -> nat)
    requires forall t <- ts :: f(t) == g(t) + h(t)
    ensures Sum(ts, f) == Sum(ts, g) + Sum(ts, h)
  {
    if ts != [] {
      SumOfParts(ts[..|ts| - 1], f, g, h);
    }
  }

  lemma {:induction false} SumIsZeroIff(ts: seq<string>, f: string -> nat)
    ensures Sum(ts, f) == 0 <==> forall t <- ts :: f(t) == 0
  {
    if ts != [] {
      SumIsZeroIff(ts[..|ts| - 1], f);
      assert forall t :: t in ts <==> t in ts[..|ts| - 1] || t == ts[|ts| - 1];
    }
  }

  function Times(rs: seq<Record>): string -> nat {
    t => |Having(rs, t)|
  }

  lemma {:induction false} SumSnocRecord(ts: seq<string>, rs: seq<Record>, r: Record)
    requires Distinct(ts)
    ensures Sum(ts, Times(rs + [r])) == Sum(ts, Times(rs)) + if KeyOf(r) in ts then 1 else 0
  {
    if ts != [] {
      var init, t := ts[..|ts| - 1], ts[|ts| - 1];
      SumSnocRecord(init, rs, r);
      HavingSnoc(rs, r, t);
      assert t !in init;
    }
  }

  // Counting by distinct templates that cover the records counts every record once.
  lemma {:induction false} SumOverTemplates(ts: seq<string>, rs: seq<Record>)
    requires Distinct(ts) && forall r <- rs :: KeyOf(r) in ts
    ensures Sum(ts, Times(rs)) == |rs|
  {
    if rs == [] {
      SumIsZeroIff(ts, Times(rs));
    } else {
      var init, r := rs[..|rs| - 1], rs[|rs| - 1];
      SumOverTemplates(ts, init);
      assert rs == init + [r];
      SumSnocRecord(ts, init, r);
    }
  }

  lemma {:induction false} HavingContent(rs: seq<Record>, t: string)
    ensures Having(rs, t) != [] <==> exists r :: r in rs && KeyOf(r) == t
  {
    if rs != [] {
      HavingContent(rs[..|rs| - 1], t);
    }
  }

  function Counts(p: Pool): string -> nat {
    t => p.CountOf(t)
  }

  lemma TemplatesCoverCurrent(ops: seq<Op>)
    ensures forall r <- Current(ops) :: KeyOf(r) in After(ops).order
  {
    OrderContent(ops);
    forall r | r in Current(ops) ensures KeyOf(r) in After(ops).order {
      PoolContent(ops, KeyOf(r));
      HavingContent(Current(ops), KeyOf(r));
    }
  }

  // CONSERVATION: the counts of the current templates sum to the total exactly when no current
  // template was already counted before the last clear, so always when nothing is ever cleared.
  lemma CountsSumToTheTotalIff(ops: seq<Op>)
    ensures var p := After(ops);
            Sum(p.order, Counts(p)) == p.total
            <==> forall t <- p.order, r <- Cleared(ops) :: KeyOf(r) != t
    ensures (forall op <- ops :: op.Add?) ==> Sum(After(ops).order, Counts(After(ops))) == |ops|
  {
    var p := After(ops);
    CountsSplit(ops);
    NoneClearedIff(p.order, Cleared(ops));
    PoolContent(ops, "");
    OnlyAdds(ops);
  }

  // The counts of the current templates are their records before and since the last clear.
  lemma CountsSplit(ops: seq<Op>)
    ensures var p := After(ops);
            Sum(p.order, Counts(p)) == Sum(p.order, Times(Cleared(ops))) + |Current(ops)|
  {
    var p := After(ops);
    OrderContent(ops);
    HistorySplits(ops);
    forall t | t in p.order ensures Counts(p)(t) == Times(Cleared(ops))(t) + Times(Current(ops))(t) {
      PoolContent(ops, t);
      HavingConcat(Cleared(ops), Current(ops), t);
    }
    SumOfParts(p.order, Counts(p), Times(Cleared(ops)), Times(Current(ops)));
    TemplatesCoverCurrent(ops);
    SumOverTemplates(p.order, Current(ops));
  }

  lemma NoneClearedIff(ts: seq<string>, rs: seq<Record>)
    ensures Sum(ts, Times(rs)) == 0 <==> forall t <- ts, r <- rs :: KeyOf(r) != t
  {
    SumIsZeroIff(ts, Times(rs));
    forall t | t in ts ensures Times(rs)(t) == 0 <==> forall r <- rs :: KeyOf(r) != t {
      HavingContent(rs, t);
    }
  }

  lemma {:induction false} OnlyAdds(ops: seq<Op>)
    ensures (forall op <- ops :: op.Add?) ==> Cleared(ops) == [] && |Current(ops)| == |ops|
  {
    if ops != [] {
      OnlyAdds(ops[..|ops| - 1]);
    }
  }

  lemma ClearedTemplateIsCountedTwice(r: Record)
    ensures var p := After([Add(r), Clear, Add(r)]);
            p.total == 1 && Sum(p.order, Counts(p)) != 1
  {
    var ops := [Add(r), Clear, Add(r)];
    assert ops[..2] == [Add(r), Clear] && ops[..2][..1] == [Add(r)] && [Add(r)][..0] == [];
    assert Cleared(ops) == Cleared(ops[..2]) == Added([Add(r)]) == [r];
    assert Current(ops) == Current(ops[..2]) + [r] == [r];
    PoolContent(ops, KeyOf(r));
    TemplatesCoverCurrent(ops);
    assert r in Cleared(ops) && KeyOf(r) in After(ops).order;
    CountsSumToTheTotalIff(ops);
  }

  class Deduplicator {
    var groupedRecords: map<string, seq<Record>>
    var order: seq<string>
    var templateCounts: map<string, nat>
    var uniqueCount: nat
    var totalCount: nat

    ghost function State(): Pool
      reads this
    {
      Pool(groupedRecords, order, templateCounts, uniqueCount, totalCount)
    }

    constructor ()
      ensures State() == EMPTY
    {
      groupedRecords, order, templateCounts, uniqueCount, totalCount := map[], [], map[], 0, 0;
    }

    // A template not seen yet is counted; looking its group up inserts an empty one.
    method EnsureGroup(key: string)
      modifies this`groupedRecords, this`order, this`uniqueCount
      ensures groupedRecords
           == if key in old(groupedRecords) then old(groupedRecords) else old(groupedRecords)[key := []]
      ensures order == if key in old(groupedRecords) then old(order) else old(order) + [key]
      ensures uniqueCount == if key in old(groupedRecords) then old(uniqueCount) else old(uniqueCount) + 1
    {
      if key !in groupedRecords {
        uniqueCount := uniqueCount + 1;
        groupedRecords, order := groupedRecords[key := []], order + [key];
      }
    }

    method AddRecord(r: Record)
      modifies this
      ensures State() == Apply(old(State()), Add(r))
    {
      var key := if r.normalized == "" then r.raw else r.normalized;
      ghost var group := State().Group(key);
      EnsureGroup(key);
      assert groupedRecords[key] == group;
      if |groupedRecords[key]| < KEPT {
        groupedRecords := groupedRecords[key := groupedRecords[key] + [r]];
      }
      assert groupedRecords == old(groupedRecords)[key := if |group| < KEPT then group + [r] else group];
      totalCount := totalCount + 1;
      templateCounts := templateCounts[key := (if key in templateCounts then templateCounts[key] else 0) + 1];
    }

    method ClearAll()
      modifies this
      ensures State() == Apply(old(State()), Clear)
    {
      groupedRecords, order, uniqueCount, totalCount := map[], [], 0, 0;
    }
  }
}
