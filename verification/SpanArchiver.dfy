/**
  The span archiver: old spans move from the hot store to a gzip file of JSON lines, optionally
  copied to an object store, and a file can be hydrated back into the hot store.

  Timestamps are integers whose ISO text reads back exactly; a file is its lines and whether it
  was closed properly.  The log branch of both operations is not modelled.
*/
module SpanArchiver {
  import opened Options
  import Sequences
  import Text

  datatype Body = Body(
    traceId: string,
    spanId: string,
    parent: Option<string>,
    service: string,
    operation: string,
    start: int,
    end: int,
    duration: real,
    status: Option<string>,
    attributes: string,
    events: string)

  // A row of the `spans` table: the primary key and the tenant are not archived.
  datatype Span = Span(key: nat, tenant: Option<int>, body: Body)

  // ISO text of a timestamp, by `isoformat` and `fromisoformat`.
  datatype Iso = Iso(time: int)

  // One JSON line of an archive.
  datatype Item = Item(
    traceId: string,
    spanId: string,
    parent: Option<string>,
    service: string,
    operation: string,
    startTime: Iso,
    endTime: Iso,
    duration: real,
    status: Option<string>,
    attributes: string,
    events: string)

  datatype File = File(items: seq<Item>, complete: bool)

  datatype World = World(hot: seq<Span>, files: map<string, File>, bucket: map<string, File>, nextKey: nat)

  // ---------------------------------------------------------------- serialising

  function Serialise(b: Body): Item {
    Item(b.traceId, b.spanId, b.parent, b.service, b.operation, Iso(b.start), Iso(b.end), b.duration,
         b.status, b.attributes, b.events)
  }

  function Deserialise(item: Item): Body {
    Body(item.traceId, item.spanId, item.parent, item.service, item.operation, item.startTime.time, item.endTime.time,
         item.duration, item.status, item.attributes, item.events)
  }

  // A line of an archive reads back as the body it was written from.
  lemma ItemsReadBack(b: Body)
    ensures Deserialise(Serialise(b)) == b
  {
  }

  // It holds the times and names of the body under their own keys.
  lemma ItemsAreLabelled(b: Body)
    ensures var item := Serialise(b);
            && item.startTime.time == b.start && item.endTime.time == b.end
            && item.traceId == b.traceId && item.spanId == b.spanId && item.parent == b.parent
            && item.service == b.service && item.operation == b.operation
            && item.attributes == b.attributes && item.events == b.events
  {
  }

  // `traces_{seconds}.jsonl.gz`
  function ArchiveName(stamp: nat): string {
    "traces_" + Text.Decimal(stamp) + ".jsonl.gz"
  }

  lemma ArchiveNamesDiffer(s: nat, t: nat)
    ensures ArchiveName(s) == ArchiveName(t) <==> s == t
  {
    if ArchiveName(s) == ArchiveName(t) {
      var suffix := ".jsonl.gz";
      assert |Text.Decimal(s)| == |Text.Decimal(t)|;
      assert Text.Decimal(s) == ArchiveName(s)[7..7 + |Text.Decimal(s)|];
      assert Text.Decimal(t) == ArchiveName(t)[7..7 + |Text.Decimal(t)|];
      Text.DecimalInjective(s, t);
    }
  }

  // ---------------------------------------------------------------- archiving

  function Old(hot: seq<Span>, cutoff: int): seq<Span> {
    if hot == [] then []
    else
      var rest := Old(hot[..|hot| - 1], cutoff);
      if hot[|hot| - 1].body.start < cutoff then rest + [hot[|hot| - 1]] else rest
  }

  function Recent(hot: seq<Span>, cutoff: int): seq<Span> {
    if hot == [] then []
    else
      var rest := Recent(hot[..|hot| - 1], cutoff);
      if hot[|hot| - 1].body.start < cutoff then rest else rest + [hot[|hot| - 1]]
  }

  function Items(spans: seq<Span>): (items: seq<Item>)
    ensures |items| == |spans|
  {
    if spans == [] then []
    else Items(spans[..|spans| - 1]) + [Serialise(spans[|spans| - 1].body)]
  }

  // A write that raises leaves the lines before it.  Leaving the `with` block then closes the file,
  // so that it reads back as a shorter archive, unless closing raises as well.
  datatype Write = Written | NotOpened | WriteFailed(lines: nat, closed: bool)

  // A commit that raises may have been applied.
  datatype Commit = Committed | CommitRaised(applied: bool)

  datatype Answers = Answers(write: Write, s3: bool, uploads: bool, downloads: bool, commit: Commit)

  function Landed(items: seq<Item>, lines: nat): seq<Item> {
    if lines < |items| then items[..lines] else items
  }

  function Partial(items: seq<Item>, write: Write): File
    requires write.WriteFailed?
  {
    File(Landed(items, write.lines), write.closed)
  }

  function Archive(w: World, cutoff: int, stamp: nat, a: Answers): World {
    var aged, name := Old(w.hot, cutoff), ArchiveName(stamp);
    if aged == [] || a.write.NotOpened? then w
    else if a.write.WriteFailed? then w.(files := w.files[name := Partial(Items(aged), a.write)])
    else
      var file := File(Items(aged), true);
      var w1 := w.(files := w.files[name := file]);
      var w2 := if a.s3 && a.uploads then w1.(bucket := w1.bucket[name := file]) else w1;
      if a.commit.Committed? || a.commit.applied then w2.(hot := Recent(w.hot, cutoff)) else w2
  }

  // ---------------------------------------------------------------- hydrating

  datatype Hydration = Restored(count: nat) | HydrationError

  function SpanIds(hot: seq<Span>): set<string> {
    set s | s in hot :: s.body.spanId
  }

  // The items whose span id is not among `ids`.
  function Absent(items: seq<Item>, ids: set<string>): seq<Item> {
    if items == [] then []
    else
      var rest := Absent(items[..|items| - 1], ids);
      if items[|items| - 1].spanId in ids then rest else rest + [items[|items| - 1]]
  }

  function Rows(items: seq<Item>, key: nat): (rows: seq<Span>)
    ensures |rows| == |items|
  {
    if items == [] then []
    else Rows(items[..|items| - 1], key) + [Span(key + |items| - 1, None, Deserialise(items[|items| - 1]))]
  }

  function Fetch(w: World, name: string, a: Answers): World {
    if name !in w.files && a.s3 && a.downloads && name in w.bucket then w.(files := w.files[name := w.bucket[name]])
    else w
  }

  // The duplicate check asks the database, which does not see the rows added by this call.
  function Hydrate(w: World, stamp: nat, a: Answers): (World, Hydration) {
    var name := ArchiveName(stamp);
    var w1 := Fetch(w, name, a);
    if name !in w1.files || !w1.files[name].complete then (w1, HydrationError)
    else
      var absent := Absent(w1.files[name].items, SpanIds(w1.hot));
      var w2 := w1.(hot := w1.hot + Rows(absent, w1.nextKey), nextKey := w1.nextKey + |absent|);
      match a.commit
      case Committed => (w2, Restored(|absent|))
      case CommitRaised(applied) => (if applied then w2 else w1, HydrationError)
  }

  // ---------------------------------------------------------------- what archiving moves

  function Bodies(hot: seq<Span>): multiset<Body> {
    if hot == [] then multiset{} else Bodies(hot[..|hot| - 1]) + multiset{hot[|hot| - 1].body}
  }

  function Stored(items: seq<Item>): multiset<Body> {
    if items == [] then multiset{} else Stored(items[..|items| - 1]) + multiset{Deserialise(items[|items| - 1])}
  }

  lemma {:induction false} SplitAtTheCutoff(hot: seq<Span>, cutoff: int)
    ensures Bodies(Old(hot, cutoff)) + Bodies(Recent(hot, cutoff)) == Bodies(hot)
  {
    if hot != [] {
      var init, s := hot[..|hot| - 1], hot[|hot| - 1];
      SplitAtTheCutoff(init, cutoff);
      BodiesSnoc(Old(init, cutoff), s);
      BodiesSnoc(Recent(init, cutoff), s);
    }
  }

  lemma BodiesSnoc(hot: seq<Span>, s: Span)
    ensures Bodies(hot + [s]) == Bodies(hot) + multiset{s.body}
  {
    assert (hot + [s])[..|hot|] == hot;
  }

  lemma {:induction false} OldContent(hot: seq<Span>, cutoff: int)
    ensures forall s :: s in Old(hot, cutoff) <==> s in hot && s.body.start < cutoff
    ensures forall s :: s in Recent(hot, cutoff) <==> s in hot && s.body.start >= cutoff
  {
    if hot != [] {
      OldContent(hot[..|hot| - 1], cutoff);
    }
  }

  lemma {:induction false} ItemsStoreBodies(spans: seq<Span>)
    ensures Stored(Items(spans)) == Bodies(spans)
    ensures forall i :: 0 <= i < |spans| ==> Items(spans)[i] == Serialise(spans[i].body)
  {
    if spans != [] {
      var n := |spans| - 1;
      ItemsStoreBodies(spans[..n]);
      ItemsReadBack(spans[n].body);
      Sequences.InitOfSnoc(Items(spans[..n]), Serialise(spans[n].body));
    }
  }

  // CONSERVATION: an archival that commits moves exactly the spans older than the cutoff: what
  // stays hot and what the file stores are together what was hot.
  lemma ArchivalMovesTheOld(w: World, cutoff: int, stamp: nat, a: Answers)
    requires a.write == Written && a.commit == Committed && Old(w.hot, cutoff) != []
    ensures var w', name := Archive(w, cutoff, stamp, a), ArchiveName(stamp);
            && name in w'.files && w'.files[name].complete
            && Bodies(w'.hot) + Stored(w'.files[name].items) == Bodies(w.hot)
            && (forall s <- w'.hot :: s.body.start >= cutoff)
            && (forall item <- w'.files[name].items :: Deserialise(item).start < cutoff)
            && (a.s3 && a.uploads ==> name in w'.bucket && w'.bucket[name] == w'.files[name])
  {
    var aged := Old(w.hot, cutoff);
    SplitAtTheCutoff(w.hot, cutoff);
    OldContent(w.hot, cutoff);
    ItemsStoreBodies(aged);
    ItemsAreOld(w.hot, cutoff);
  }

  // The file holds the first `lines` of `items`, or all of them if there are fewer.
  ghost predicate ShorterFile(files: map<string, File>, name: string, items: seq<Item>, lines: nat, closed: bool) {
    && name in files && files[name].items <= items && files[name].complete == closed
    && (|files[name].items| == lines || (|files[name].items| == |items| && |items| < lines))
  }

  // An archival with nothing old changes nothing; one whose write fails leaves both stores as they
  // are, one whose commit is not applied the hot store, one without an upload the object store.
  lemma FailedArchivalKeeps(w: World, cutoff: int, stamp: nat, a: Answers)
    ensures var w' := Archive(w, cutoff, stamp, a);
            && ((forall s <- w.hot :: s.body.start >= cutoff) ==> w' == w)
            && (a.write == NotOpened ==> w' == w)
            && (a.write != Written ==> w'.hot == w.hot && w'.bucket == w.bucket)
            && (a.write.WriteFailed? && Old(w.hot, cutoff) != [] ==>
                  ShorterFile(w'.files, ArchiveName(stamp), Items(Old(w.hot, cutoff)), a.write.lines, a.write.closed))
            && (a.commit == CommitRaised(false) ==> w'.hot == w.hot)
            && (!a.s3 || !a.uploads ==> w'.bucket == w.bucket)
            && w'.nextKey == w.nextKey
  {
    OldContent(w.hot, cutoff);
    if Old(w.hot, cutoff) != [] {
      assert Old(w.hot, cutoff)[0] in Old(w.hot, cutoff);
    }
  }

  lemma ItemsAreOld(hot: seq<Span>, cutoff: int)
    ensures forall item <- Items(Old(hot, cutoff)) :: Deserialise(item).start < cutoff
  {
    var aged := Old(hot, cutoff);
    OldContent(hot, cutoff);
    ItemsStoreBodies(aged);
    forall item | item in Items(aged) ensures Deserialise(item).start < cutoff {
      var i :| 0 <= i < |aged| && Items(aged)[i] == item;
      ItemsReadBack(aged[i].body);
      assert aged[i] in aged;
    }
  }

  // ---------------------------------------------------------------- what hydrating restores

  lemma {:induction false} BodiesConcat(a: seq<Span>, b: seq<Span>)
    ensures Bodies(a + b) == Bodies(a) + Bodies(b)
  {
    if b == [] {
      assert a + b == a;
    } else {
      BodiesConcat(a, b[..|b| - 1]);
      Sequences.InitOfConcat(a, b);
    }
  }

  lemma {:induction false} RowsBodies(items: seq<Item>, key: nat)
    ensures Bodies(Rows(items, key)) == Stored(items)
    ensures forall i :: 0 <= i < |items| ==> Rows(items, key)[i] == Span(key + i, None, Deserialise(items[i]))
  {
    if items != [] {
      var n := |items| - 1;
      RowsBodies(items[..n], key);
      assert Rows(items, key)[..n] == Rows(items[..n], key);
    }
  }

  lemma RowsSnoc(items: seq<Item>, item: Item, key: nat)
    ensures Rows(items + [item], key) == Rows(items, key) + [Span(key + |items|, None, Deserialise(item))]
  {
    Sequences.InitOfSnoc(items, item);
  }

  // A shorter archive stores no body that the whole one does not.
  lemma {:induction false} PrefixStores(items: seq<Item>, n: nat)
    requires n <= |items|
    ensures Stored(items[..n]) <= Stored(items)
  {
    if n == |items| {
      assert items[..n] == items;
    } else {
      PrefixStores(items[..|items| - 1], n);
      assert items[..|items| - 1][..n] == items[..n];
    }
  }

  lemma LandedStores(items: seq<Item>, lines: nat)
    ensures Stored(Landed(items, lines)) <= Stored(items)
  {
    if lines < |items| {
      PrefixStores(items, lines);
    }
  }

  lemma {:induction false} AbsentContent(items: seq<Item>, ids: set<string>)
    ensures forall item :: item in Absent(items, ids) <==> item in items && item.spanId !in ids
  {
    if items != [] {
      AbsentContent(items[..|items| - 1], ids);
      assert forall item :: item in items <==> item in items[..|items| - 1] || item == items[|items| - 1];
    }
  }

  lemma {:induction false} NothingAbsent(items: seq<Item>, ids: set<string>)
    requires forall item <- items :: item.spanId in ids
    ensures Absent(items, ids) == []
  {
    if items != [] {
      assert items[|items| - 1] in items;
      NothingAbsent(items[..|items| - 1], ids);
    }
  }

  lemma {:induction false} BodiesContent(hot: seq<Span>)
    ensures forall b :: b in Bodies(hot) <==> exists s :: s in hot && s.body == b
  {
    if hot != [] {
      BodiesContent(hot[..|hot| - 1]);
      forall b ensures b in Bodies(hot) <==> exists s :: s in hot && s.body == b {
        if b in Bodies(hot[..|hot| - 1]) {
          var s :| s in hot[..|hot| - 1] && s.body == b;
          assert s in hot;
        } else if b == hot[|hot| - 1].body {
          assert hot[|hot| - 1] in hot;
        }
      }
    }
  }

  // The archived spans whose id is still in the hot store cannot be restored.
  ghost predicate NoIdShared(w: World, cutoff: int) {
    forall s <- Old(w.hot, cutoff), r <- Recent(w.hot, cutoff) :: s.body.spanId != r.body.spanId
  }

  ghost predicate DistinctIds(hot: seq<Span>) {
    forall i, j :: 0 <= i < j < |hot| ==> hot[i].body.spanId != hot[j].body.spanId
  }

  lemma DistinctIdsAreNotShared(w: World, cutoff: int)
    requires DistinctIds(w.hot)
    ensures NoIdShared(w, cutoff)
  {
    OldContent(w.hot, cutoff);
    forall s, r | s in Old(w.hot, cutoff) && r in Recent(w.hot, cutoff) ensures s.body.spanId != r.body.spanId {
      var i :| 0 <= i < |w.hot| && w.hot[i] == s;
      var j :| 0 <= j < |w.hot| && w.hot[j] == r;
      assert i != j;
    }
  }

  const GOOD := Answers(Written, false, false, false, Committed)

  // `name` holds exactly the lines `items`, properly closed.
  ghost predicate Holds(w: World, stamp: nat, items: seq<Item>) {
    ArchiveName(stamp) in w.files && w.files[ArchiveName(stamp)] == File(items, true)
  }

  lemma HydrateHeld(w: World, stamp: nat, items: seq<Item>, b: Answers)
    requires Holds(w, stamp, items) && b.commit == Committed
    ensures var absent := Absent(items, SpanIds(w.hot));
            Hydrate(w, stamp, b)
            == (w.(hot := w.hot + Rows(absent, w.nextKey), nextKey := w.nextKey + |absent|), Restored(|absent|))
  {
    assert Fetch(w, ArchiveName(stamp), b) == w;
  }

  lemma RestoredBodies(aged: seq<Span>, kept: seq<Span>, key: nat)
    ensures var items := Items(aged);
            var absent := Absent(items, SpanIds(kept));
            && (Bodies(kept + Rows(absent, key)) == Bodies(aged) + Bodies(kept) <==> absent == items)
            && |absent| <= |aged| && (|absent| == |aged| <==> absent == items)
  {
    var items := Items(aged);
    var absent := Absent(items, SpanIds(kept));
    ItemsStoreBodies(aged);
    RowsBodies(absent, key);
    BodiesConcat(kept, Rows(absent, key));
    BodiesCount(kept);
    BodiesCount(aged);
    BodiesCount(Rows(absent, key));
    AbsentLength(items, SpanIds(kept));
    if Bodies(kept + Rows(absent, key)) == Bodies(aged) + Bodies(kept) {
      assert |Bodies(kept)| + |Bodies(Rows(absent, key))| == |Bodies(aged) + Bodies(kept)|;
    }
  }

  lemma {:induction false} BodiesCount(hot: seq<Span>)
    ensures |Bodies(hot)| == |hot|
  {
    if hot != [] {
      BodiesCount(hot[..|hot| - 1]);
    }
  }

  lemma {:induction false} AbsentLength(items: seq<Item>, ids: set<string>)
    ensures |Absent(items, ids)| <= |items|
    ensures |Absent(items, ids)| == |items| <==> Absent(items, ids) == items
    ensures Absent(items, ids) == items <==> forall item <- items :: item.spanId !in ids
  {
    if items != [] {
      var init, item := items[..|items| - 1], items[|items| - 1];
      AbsentLength(init, ids);
      assert items == init + [item];
    }
  }

  // No span id of `aged` is in use in `hot`.
  ghost predicate Freed(aged: seq<Span>, hot: seq<Span>) {
    forall s <- aged :: s.body.spanId !in SpanIds(hot)
  }

  lemma FreedIds(aged: seq<Span>, hot: seq<Span>)
    ensures Freed(aged, hot) <==> forall item <- Items(aged) :: item.spanId !in SpanIds(hot)
  {
    ItemsStoreBodies(aged);
    forall item | item in Items(aged) ensures exists s :: s in aged && item == Serialise(s.body) {
      var i :| 0 <= i < |aged| && Items(aged)[i] == item;
      assert aged[i] in aged;
    }
    forall s | s in aged ensures Serialise(s.body) in Items(aged) && Serialise(s.body).spanId == s.body.spanId {
      var i :| 0 <= i < |aged| && aged[i] == s;
      assert Items(aged)[i] == Serialise(s.body);
    }
  }

  lemma RestoredIdsAreHot(items: seq<Item>, hot: seq<Span>, key: nat)
    ensures forall item <- items :: item.spanId in SpanIds(hot + Rows(Absent(items, SpanIds(hot)), key))
  {
    var absent := Absent(items, SpanIds(hot));
    var hot' := hot + Rows(absent, key);
    RowsBodies(absent, key);
    AbsentContent(items, SpanIds(hot));
    forall item | item in items ensures item.spanId in SpanIds(hot') {
      if item.spanId in SpanIds(hot) {
        var s :| s in hot && s.body.spanId == item.spanId;
        assert s in hot';
      } else {
        var i :| 0 <= i < |absent| && absent[i] == item;
        assert hot'[|hot| + i] == Rows(absent, key)[i];
        assert hot'[|hot| + i] in hot';
      }
    }
  }

  lemma HydrateEffect(w: World, stamp: nat, a: Answers)
    requires Hydrate(w, stamp, a).1.Restored?
    ensures var w', name := Hydrate(w, stamp, a).0, ArchiveName(stamp);
            && name in w'.files && w'.files[name].complete
            && w'.hot == w.hot + Rows(Absent(w'.files[name].items, SpanIds(w.hot)), w.nextKey)
  {
  }

  // A second hydration of a file restores nothing.
  lemma SecondHydrateRestoresNone(w: World, stamp: nat, a: Answers, b: Answers)
    requires Hydrate(w, stamp, a).1.Restored? && b.commit == Committed
    ensures Hydrate(Hydrate(w, stamp, a).0, stamp, b) == (Hydrate(w, stamp, a).0, Restored(0))
  {
    var w', name := Hydrate(w, stamp, a).0, ArchiveName(stamp);
    HydrateEffect(w, stamp, a);
    RestoredIdsAreHot(w'.files[name].items, w.hot, w.nextKey);
    NothingAbsent(w'.files[name].items, SpanIds(w'.hot));
    assert w'.hot + Rows([], w'.nextKey) == w'.hot;
    assert Fetch(w', name, b) == w';
  }

  // THE COPY: where the object store holds the same file, losing the local one changes nothing
  // about a hydration that can download it.
  lemma BucketReplacesTheFile(w: World, stamp: nat, a: Answers)
    requires var name := ArchiveName(stamp); name in w.files && name in w.bucket && w.bucket[name] == w.files[name]
    requires a.s3 && a.downloads
    ensures Hydrate(w.(files := w.files - {ArchiveName(stamp)}), stamp, a) == Hydrate(w, stamp, a)
  {
    var name := ArchiveName(stamp);
    assert (w.files - {name})[name := w.bucket[name]] == w.files;
  }

  // A file that is only in the object store is fetched, and every span it holds is hot afterwards;
  // where none of their ids is in use, all of them come back.
  lemma HydratingFromTheBucket(w: World, stamp: nat, a: Answers)
    requires var name := ArchiveName(stamp); name !in w.files && name in w.bucket && w.bucket[name].complete
    requires a.s3 && a.downloads && a.commit == Committed
    ensures var (w', h) := Hydrate(w, stamp, a);
            var name, items := ArchiveName(stamp), w.bucket[ArchiveName(stamp)].items;
            && w'.files == w.files[name := w.bucket[name]] && w'.bucket == w.bucket && h.Restored?
            && (forall item <- items :: item.spanId in SpanIds(w'.hot))
            && ((forall item <- items :: item.spanId !in SpanIds(w.hot)) ==>
                  h == Restored(|items|) && Bodies(w'.hot) == Bodies(w.hot) + Stored(items))
  {
    var items := w.bucket[ArchiveName(stamp)].items;
    RestoredIdsAreHot(items, w.hot, w.nextKey);
    AbsentLength(items, SpanIds(w.hot));
    BodiesConcat(w.hot, Rows(items, w.nextKey));
    RowsBodies(items, w.nextKey);
  }

  // A hydration whose commit raises is an error, whatever the database made of it: all of the rows
  // are there, or none.
  lemma RaisedHydrationIsAnError(w: World, stamp: nat, a: Answers, applied: bool)
    ensures var (w', h) := Hydrate(w, stamp, a.(commit := CommitRaised(applied)));
            && h == HydrationError
            && (applied ==> w' == Hydrate(w, stamp, a.(commit := Committed)).0)
            && (!applied ==> w'.hot == w.hot && w'.nextKey == w.nextKey)
  {
  }

  // A hydration that finds the file nowhere is an error and changes nothing; one of a file that was
  // not closed is an error and restores nothing.
  lemma UnreachableFileIsAnError(w: World, stamp: nat, a: Answers)
    ensures var name := ArchiveName(stamp);
            name !in w.files && !(a.s3 && a.downloads && name in w.bucket) ==>
              Hydrate(w, stamp, a) == (w, HydrationError)
    ensures var name := ArchiveName(stamp);
            name in w.files && !w.files[name].complete ==> Hydrate(w, stamp, a) == (w, HydrationError)
  {
  }

  // ---------------------------------------------------------------- whole runs

  ghost predicate InFile(files: map<string, File>, b: Body) {
    exists name :: name in files && files[name].complete && b in Stored(files[name].items)
  }

  // The body is in the hot store, in an archive file or in the object store.
  ghost predicate Known(w: World, b: Body) {
    b in Bodies(w.hot) || InFile(w.files, b) || InFile(w.bucket, b)
  }

  function WithoutFile(w: World, name: string, uploaded: bool): World {
    w.(files := w.files - {name}, bucket := if uploaded then w.bucket - {name} else w.bucket)
  }

  lemma InFileAfterWrite(files: map<string, File>, name: string, file: File, b: Body)
    ensures InFile(files[name := file], b) <==> (file.complete && b in Stored(file.items)) || InFile(files - {name}, b)
  {
    var files' := files[name := file];
    if InFile(files', b) {
      var n :| n in files' && files'[n].complete && b in Stored(files'[n].items);
      assert n != name ==> n in files - {name};
    }
    if InFile(files - {name}, b) {
      var n :| n in files - {name} && (files - {name})[n].complete && b in Stored((files - {name})[n].items);
      assert n in files' && files'[n] == (files - {name})[n];
    }
    if file.complete && b in Stored(file.items) {
      assert name in files' && files'[name] == file;
    }
  }

  // An archival that opens its file keeps exactly what is known apart from an earlier file, and
  // an earlier upload, of the same name.
  lemma ArchivalKeepsAllButTheName(w: World, cutoff: int, stamp: nat, a: Answers, b: Body)
    requires Old(w.hot, cutoff) != [] && !a.write.NotOpened?
    ensures Known(Archive(w, cutoff, stamp, a), b)
            <==> Known(WithoutFile(w, ArchiveName(stamp), a.write.Written? && a.s3 && a.uploads), b)
  {
    var name := ArchiveName(stamp);
    var items := Items(Old(w.hot, cutoff));
    SplitAtTheCutoff(w.hot, cutoff);
    ItemsStoreBodies(Old(w.hot, cutoff));
    if a.write.WriteFailed? {
      LandedStores(items, a.write.lines);
      InFileAfterWrite(w.files, name, Partial(items, a.write), b);
    } else {
      InFileAfterWrite(w.files, name, File(items, true), b);
      InFileAfterWrite(w.bucket, name, File(items, true), b);
    }
  }

  datatype Step =
    | Arrive(tenant: Option<int>, body: Body)
    | ArchiveStep(cutoff: int, stamp: nat, archived: Answers)
    | HydrateStep(stamp: nat, hydrated: Answers)

  function Next(w: World, s: Step): World {
    match s
    case Arrive(tenant, body) => w.(hot := w.hot + [Span(w.nextKey, tenant, body)], nextKey := w.nextKey + 1)
    case ArchiveStep(cutoff, stamp, a) => Archive(w, cutoff, stamp, a)
    case HydrateStep(stamp, a) => Hydrate(w, stamp, a).0
  }

  function Run(w: World, steps: seq<Step>): World {
    if steps == [] then w else Next(Run(w, steps[..|steps| - 1]), steps[|steps| - 1])
  }

  // No archival of the run takes the name of a finished archive: they are a second apart.
  predicate FreshName(w: World, s: Step) {
    s.ArchiveStep? ==>
      var name := ArchiveName(s.stamp);
      !(name in w.files && w.files[name].complete) && !(name in w.bucket && w.bucket[name].complete)
  }

  predicate FreshNames(w: World, steps: seq<Step>) {
    steps != [] ==>
      FreshNames(w, steps[..|steps| - 1]) && FreshName(Run(w, steps[..|steps| - 1]), steps[|steps| - 1])
  }

  lemma FreshNameHidesNothing(files: map<string, File>, name: string, b: Body)
    requires !(name in files && files[name].complete)
    ensures InFile(files, b) ==> InFile(files - {name}, b)
  {
    if InFile(files, b) {
      var n :| n in files && files[n].complete && b in Stored(files[n].items);
      assert n in files - {name};
    }
  }

  lemma StepLosesNothing(w: World, s: Step, b: Body)
    requires Known(w, b) && FreshName(w, s)
    ensures Known(Next(w, s), b)
  {
    match s
    case Arrive(tenant, body) =>
      BodiesSnoc(w.hot, Span(w.nextKey, tenant, body));
    case ArchiveStep(cutoff, stamp, a) =>
      if Old(w.hot, cutoff) != [] && !a.write.NotOpened? {
        FreshNameHidesNothing(w.files, ArchiveName(stamp), b);
        FreshNameHidesNothing(w.bucket, ArchiveName(stamp), b);
        ArchivalKeepsAllButTheName(w, cutoff, stamp, a, b);
      }
    case HydrateStep(stamp, a) =>
      HydrationLosesNothing(w, stamp, a, b);
  }

  lemma FetchKeepsFiles(w: World, name: string, a: Answers, b: Body)
    ensures InFile(w.files, b) ==> InFile(Fetch(w, name, a).files, b)
  {
    if InFile(w.files, b) {
      var n :| n in w.files && w.files[n].complete && b in Stored(w.files[n].items);
      assert n in Fetch(w, name, a).files && Fetch(w, name, a).files[n] == w.files[n];
    }
  }

  lemma HydrateOnlyAdds(w: World, stamp: nat, a: Answers)
    ensures var w' := Hydrate(w, stamp, a).0;
            w.hot <= w'.hot && w'.bucket == w.bucket && w'.files == Fetch(w, ArchiveName(stamp), a).files
  {
  }

  lemma HydrationLosesNothing(w: World, stamp: nat, a: Answers, b: Body)
    requires Known(w, b)
    ensures Known(Hydrate(w, stamp, a).0, b)
  {
    var w' := Hydrate(w, stamp, a).0;
    HydrateOnlyAdds(w, stamp, a);
    if b in Bodies(w.hot) {
      MoreSpansMoreBodies(w.hot, w'.hot);
    } else if InFile(w.files, b) {
      FetchKeepsFiles(w, ArchiveName(stamp), a, b);
    } else {
      assert InFile(w'.bucket, b);
    }
  }

  lemma MoreSpansMoreBodies(hot: seq<Span>, hot': seq<Span>)
    requires hot <= hot'
    ensures Bodies(hot) <= Bodies(hot')
  {
    BodiesConcat(hot, hot'[|hot|..]);
    assert hot' == hot + hot'[|hot|..];
  }

  // NOTHING IS LOST: through failed writes, failed uploads, failed commits and hydrations, a span
  // once known stays in the hot store or in an archive.
  lemma {:induction false} NothingIsLost(w: World, steps: seq<Step>, b: Body)
    requires Known(w, b) && FreshNames(w, steps)
    ensures Known(Run(w, steps), b)
  {
    if steps != [] {
      NothingIsLost(w, steps[..|steps| - 1], b);
      StepLosesNothing(Run(w, steps[..|steps| - 1]), steps[|steps| - 1], b);
    }
  }

  // So every span that arrives in such a run is still hot or in an archive when it ends.
  lemma {:induction false} ArrivalsStayKnown(w: World, steps: seq<Step>, i: nat)
    requires i < |steps| && steps[i].Arrive? && FreshNames(w, steps)
    ensures Known(Run(w, steps), steps[i].body)
  {
    var n := |steps| - 1;
    var w1 := Run(w, steps[..n]);
    if i < n {
      ArrivalsStayKnown(w, steps[..n], i);
      StepLosesNothing(w1, steps[n], steps[i].body);
    } else {
      BodiesSnoc(w1.hot, Span(w1.nextKey, steps[n].tenant, steps[n].body));
    }
  }

  // ---------------------------------------------------------------- the round trip

  // No step archives under the name of `stamp`.
  predicate LeavesName(steps: seq<Step>, stamp: nat) {
    forall s <- steps :: s.ArchiveStep? ==> s.stamp != stamp
  }

  lemma StepKeepsFile(w: World, s: Step, stamp: nat, items: seq<Item>)
    requires Holds(w, stamp, items) && (s.ArchiveStep? ==> s.stamp != stamp)
    ensures Holds(Next(w, s), stamp, items)
  {
    match s
    case Arrive(_, _) =>
    case ArchiveStep(_, other, _) => ArchiveNamesDiffer(stamp, other);
    case HydrateStep(other, a) => HydrateOnlyAdds(w, other, a);
  }

  lemma {:induction false} RunKeepsFile(w: World, steps: seq<Step>, stamp: nat, items: seq<Item>)
    requires Holds(w, stamp, items) && LeavesName(steps, stamp)
    ensures Holds(Run(w, steps), stamp, items)
  {
    if steps != [] {
      RunKeepsFile(w, steps[..|steps| - 1], stamp, items);
      StepKeepsFile(Run(w, steps[..|steps| - 1]), steps[|steps| - 1], stamp, items);
    }
  }

  // ROUND TRIP: however the archival's upload and commit turned out and whatever happened since,
  // hydrating the file brings back every archived span on all the serialised fields exactly when
  // none of their ids is in use by then.
  lemma HydratingLaterRestoresIff(w: World, cutoff: int, stamp: nat, a: Answers, steps: seq<Step>, b: Answers)
    requires Old(w.hot, cutoff) != [] && a.write == Written && LeavesName(steps, stamp) && b.commit == Committed
    ensures var aged, w2 := Old(w.hot, cutoff), Run(Archive(w, cutoff, stamp, a), steps);
            var (w3, h) := Hydrate(w2, stamp, b);
            && h.Restored? && h.count <= |aged|
            && (Bodies(w3.hot) == Bodies(aged) + Bodies(w2.hot) <==> Freed(aged, w2.hot))
            && (h.count == |aged| <==> Freed(aged, w2.hot))
  {
    var aged, w2 := Old(w.hot, cutoff), Run(Archive(w, cutoff, stamp, a), steps);
    RunKeepsFile(Archive(w, cutoff, stamp, a), steps, stamp, Items(aged));
    HydrateHeld(w2, stamp, Items(aged), b);
    RestoredBodies(aged, w2.hot, w2.nextKey);
    AbsentLength(Items(aged), SpanIds(w2.hot));
    FreedIds(aged, w2.hot);
  }

  // Directly after a committed archival that means: exactly when no id is on both sides of the
  // cutoff, which distinct ids ensure.
  lemma HydratingUndoesArchivingIff(w: World, cutoff: int, stamp: nat, a: Answers, b: Answers)
    requires Old(w.hot, cutoff) != [] && a.write == Written && a.commit == Committed && b.commit == Committed
    ensures var (w2, h) := Hydrate(Archive(w, cutoff, stamp, a), stamp, b);
            && h.Restored? && h.count <= |Old(w.hot, cutoff)|
            && (Bodies(w2.hot) == Bodies(w.hot) <==> NoIdShared(w, cutoff))
            && (h.count == |Old(w.hot, cutoff)| <==> NoIdShared(w, cutoff))
  {
    var aged, kept := Old(w.hot, cutoff), Recent(w.hot, cutoff);
    HydratingLaterRestoresIff(w, cutoff, stamp, a, [], b);
    SplitAtTheCutoff(w.hot, cutoff);
    assert Freed(aged, kept) <==> NoIdShared(w, cutoff) by {
      if Freed(aged, kept) {
        forall s, r | s in aged && r in kept ensures s.body.spanId != r.body.spanId {
          assert r.body.spanId in SpanIds(kept);
        }
      }
    }
  }

  // Primary keys rise along the hot store and are below `bound`; so no two rows share one.
  ghost predicate KeysRise(hot: seq<Span>, bound: nat) {
    && (forall i :: 0 <= i < |hot| ==> hot[i].key < bound)
    && (forall i, j :: 0 <= i < j < |hot| ==> hot[i].key < hot[j].key)
  }

  lemma {:induction false} RecentKeysRise(hot: seq<Span>, cutoff: int, bound: nat)
    requires KeysRise(hot, bound)
    ensures KeysRise(Recent(hot, cutoff), bound)
  {
    if hot != [] {
      var init, last := hot[..|hot| - 1], hot[|hot| - 1];
      assert KeysRise(init, last.key);
      RecentKeysRise(init, cutoff, last.key);
    }
  }

  lemma NewKeysRise(hot: seq<Span>, bound: nat, rows: seq<Span>)
    requires KeysRise(hot, bound) && forall i :: 0 <= i < |rows| ==> rows[i].key == bound + i
    ensures KeysRise(hot + rows, bound + |rows|)
  {
  }

  lemma HydrationAddsRows(w: World, stamp: nat, b: Answers) returns (absent: seq<Item>)
    ensures var w' := Hydrate(w, stamp, b).0;
            w'.hot == w.hot + Rows(absent, w.nextKey) && w'.nextKey == w.nextKey + |absent|
  {
    var w1, w' := Fetch(w, ArchiveName(stamp), b), Hydrate(w, stamp, b).0;
    absent := [];
    assert w.hot + Rows([], w.nextKey) == w.hot;
    if w' != w1 {
      absent := Absent(w1.files[ArchiveName(stamp)].items, SpanIds(w1.hot));
    }
  }

  // A hydration leaves what is hot as it was, and adds rows after it with the next keys, which no
  // row has, and no tenant.
  lemma RestoredRowsAreNew(w: World, stamp: nat, b: Answers)
    ensures var hot := Hydrate(w, stamp, b).0.hot;
            && w.hot <= hot
            && forall i :: |w.hot| <= i < |hot| ==> hot[i].tenant == None && hot[i].key == w.nextKey + i - |w.hot|
    ensures KeysRise(w.hot, w.nextKey) ==> KeysRise(Hydrate(w, stamp, b).0.hot, Hydrate(w, stamp, b).0.nextKey)
  {
    var absent := HydrationAddsRows(w, stamp, b);
    RowsBodies(absent, w.nextKey);
    if KeysRise(w.hot, w.nextKey) {
      NewKeysRise(w.hot, w.nextKey, Rows(absent, w.nextKey));
    }
  }

  lemma StepKeepsKeys(w: World, s: Step)
    requires KeysRise(w.hot, w.nextKey)
    ensures KeysRise(Next(w, s).hot, Next(w, s).nextKey)
  {
    match s
    case Arrive(tenant, body) => NewKeysRise(w.hot, w.nextKey, [Span(w.nextKey, tenant, body)]);
    case ArchiveStep(cutoff, _, _) => RecentKeysRise(w.hot, cutoff, w.nextKey);
    case HydrateStep(stamp, a) => RestoredRowsAreNew(w, stamp, a);
  }

  // KEYS: over every run from an empty store no two rows ever share a primary key, and the key
  // of the next one is in use nowhere.
  lemma {:induction false} KeysStayDistinct(steps: seq<Step>)
    ensures var w := Run(World([], map[], map[], 0), steps); KeysRise(w.hot, w.nextKey)
  {
    if steps != [] {
      KeysStayDistinct(steps[..|steps| - 1]);
      StepKeepsKeys(Run(World([], map[], map[], 0), steps[..|steps| - 1]), steps[|steps| - 1]);
    }
  }

  // ---------------------------------------------------------------- how many copies are kept

  // The copies of a body in finished files, whichever file is counted first.
  ghost function FileCopies(files: map<string, File>, b: Body): nat
    decreases |files|
  {
    if files == map[] then 0
    else
      var name :| name in files;
      CopiesIn(files, name, b) + FileCopies(files - {name}, b)
  }

  function CopiesIn(files: map<string, File>, name: string, b: Body): nat {
    if name in files && files[name].complete then Stored(files[name].items)[b] else 0
  }

  lemma {:induction false} FileCopiesWithout(files: map<string, File>, name: string, b: Body)
    ensures FileCopies(files, b) == CopiesIn(files, name, b) + FileCopies(files - {name}, b)
    decreases |files|
  {
    if name in files {
      var first :| first in files && FileCopies(files, b) == CopiesIn(files, first, b) + FileCopies(files - {first}, b);
      if first != name {
        var rest, others := files - {first}, files - {name};
        FileCopiesWithout(rest, name, b);
        FileCopiesWithout(others, first, b);
        assert rest - {name} == others - {first};
        assert name in rest && rest[name] == files[name] && first in others && others[first] == files[first];
        assert CopiesIn(rest, name, b) == CopiesIn(files, name, b);
        assert CopiesIn(others, first, b) == CopiesIn(files, first, b);
      }
    } else {
      assert files - {name} == files;
    }
  }

  lemma FileCopiesAfterWrite(files: map<string, File>, name: string, file: File, b: Body)
    ensures FileCopies(files[name := file], b) + CopiesIn(files, name, b)
         == FileCopies(files, b) + if file.complete then Stored(file.items)[b] else 0
  {
    FileCopiesWithout(files, name, b);
    FileCopiesWithout(files[name := file], name, b);
    assert files[name := file] - {name} == files - {name};
  }

  ghost function Copies(w: World, b: Body): nat {
    Bodies(w.hot)[b] + FileCopies(w.files, b)
  }

  lemma WritingAddsCopies(w: World, cutoff: int, name: string, b: Body)
    requires CopiesIn(w.files, name, b) == 0
    ensures var files := w.files[name := File(Items(Old(w.hot, cutoff)), true)];
            FileCopies(files, b) == FileCopies(w.files, b) + Bodies(Old(w.hot, cutoff))[b]
    ensures Bodies(w.hot)[b] == Bodies(Old(w.hot, cutoff))[b] + Bodies(Recent(w.hot, cutoff))[b]
  {
    SplitAtTheCutoff(w.hot, cutoff);
    ItemsStoreBodies(Old(w.hot, cutoff));
    FileCopiesAfterWrite(w.files, name, File(Items(Old(w.hot, cutoff)), true), b);
  }

  lemma ArchivalKeepsCopies(w: World, cutoff: int, stamp: nat, a: Answers, b: Body)
    requires CopiesIn(w.files, ArchiveName(stamp), b) == 0
    ensures Copies(Archive(w, cutoff, stamp, a), b) >= Copies(w, b)
    ensures a.write == Written && a.commit == Committed ==> Copies(Archive(w, cutoff, stamp, a), b) == Copies(w, b)
  {
    var aged, name := Old(w.hot, cutoff), ArchiveName(stamp);
    if aged == [] || a.write.NotOpened? {
      assert Archive(w, cutoff, stamp, a) == w;
    } else if a.write.WriteFailed? {
      FileCopiesAfterWrite(w.files, name, Partial(Items(aged), a.write), b);
    } else {
      WritingAddsCopies(w, cutoff, name, b);
    }
  }

  lemma HydrationKeepsCopies(w: World, stamp: nat, a: Answers, b: Body)
    ensures Copies(Hydrate(w, stamp, a).0, b) >= Copies(w, b)
  {
    var w', name := Hydrate(w, stamp, a).0, ArchiveName(stamp);
    HydrateOnlyAdds(w, stamp, a);
    MoreSpansMoreBodies(w.hot, w'.hot);
    if Fetch(w, name, a) != w {
      FileCopiesAfterWrite(w.files, name, w.bucket[name], b);
    }
  }

  // CONSERVATION OVER RUNS: the copies of a span in the hot store and in finished files never
  // become fewer, and a committed archival keeps their number.
  lemma {:induction false} NoCopyIsLost(w: World, steps: seq<Step>, b: Body)
    requires FreshNames(w, steps)
    ensures Copies(Run(w, steps), b) >= Copies(w, b)
  {
    if steps != [] {
      var init, s := steps[..|steps| - 1], steps[|steps| - 1];
      var w1 := Run(w, init);
      NoCopyIsLost(w, init, b);
      match s
      case Arrive(tenant, body) => BodiesSnoc(w1.hot, Span(w1.nextKey, tenant, body));
      case ArchiveStep(cutoff, stamp, a) => ArchivalKeepsCopies(w1, cutoff, stamp, a, b);
      case HydrateStep(stamp, a) => HydrationKeepsCopies(w1, stamp, a, b);
    }
  }

  function TwoSpans(x: Body, y: Body): World {
    World([Span(0, None, x), Span(1, None, y)], map[], map[], 2)
  }

  // Two archivals within one second: the second file replaces the first.
  lemma SameSecondLosesSpans(x: Body, y: Body, stamp: nat)
    requires x.start < y.start && x != y
    ensures !Known(Archive(Archive(TwoSpans(x, y), y.start, stamp, GOOD), y.start + 1, stamp, GOOD), x)
  {
    FirstArchival(x, y, stamp);
    SecondArchivalForgets(Archive(TwoSpans(x, y), y.start, stamp, GOOD), y, stamp, x);
  }

  lemma FirstArchival(x: Body, y: Body, stamp: nat)
    requires x.start < y.start
    ensures var w := Archive(TwoSpans(x, y), y.start, stamp, GOOD);
            w.hot == [Span(1, None, y)] && w.files.Keys == {ArchiveName(stamp)} && w.bucket == map[]
  {
    FirstOfTwoIsOld(Span(0, None, x), Span(1, None, y), y.start);
  }

  lemma SecondArchivalForgets(w: World, y: Body, stamp: nat, b: Body)
    requires w.hot == [Span(1, None, y)] && y != b && w.bucket == map[] && w.files.Keys == {ArchiveName(stamp)}
    ensures !Known(Archive(w, y.start + 1, stamp, GOOD), b)
  {
    var s, w' := Span(1, None, y), WithoutFile(w, ArchiveName(stamp), false);
    OldContent([s], y.start + 1);
    assert s in [s] && s in Old([s], y.start + 1);
    ArchivalKeepsAllButTheName(w, y.start + 1, stamp, GOOD, b);
    assert w'.files.Keys == {};
    BodiesContent([s]);
  }

  lemma FirstOfTwoIsOld(x: Span, y: Span, cutoff: int)
    requires x.body.start < cutoff <= y.body.start
    ensures Old([x, y], cutoff) == [x] && Recent([x, y], cutoff) == [y]
  {
    var one, two := [x], [x, y];
    assert one[..0] == [] && two[..1] == one;
    assert Old(one, cutoff) == Old(one[..0], cutoff) + [x] && Recent(one, cutoff) == Recent(one[..0], cutoff);
    assert Old(two, cutoff) == Old(two[..1], cutoff) && Recent(two, cutoff) == Recent(two[..1], cutoff) + [y];
  }

  // ---------------------------------------------------------------- the engine

  class Engine {
    var hot: seq<Span>
    var files: map<string, File>
    var bucket: map<string, File>
    var nextKey: nat

    ghost function State(): World
      reads this
    {
      World(hot, files, bucket, nextKey)
    }

    constructor ()
      ensures State() == World([], map[], map[], 0)
    {
      hot, files, bucket, nextKey := [], map[], map[], 0;
    }

    method OldSpans(cutoff: int) returns (aged: seq<Span>, recent: seq<Span>)
      ensures aged == Old(hot, cutoff) && recent == Recent(hot, cutoff)
    {
      aged, recent := [], [];
      for i := 0 to |hot|
        invariant aged == Old(hot[..i], cutoff) && recent == Recent(hot[..i], cutoff)
      {
        assert hot[..i + 1][..i] == hot[..i];
        if hot[i].body.start < cutoff {
          aged := aged + [hot[i]];
        } else {
          recent := recent + [hot[i]];
        }
      }
      assert hot[..|hot|] == hot;
    }

    // Writes the lines of `aged`; a failure leaves some of them behind.
    method WriteFile(name: string, aged: seq<Span>, write: Write) returns (ok: bool)
      modifies this`files
      ensures ok <==> write == Written
      ensures files == match write
                       case Written => old(files)[name := File(Items(aged), true)]
                       case NotOpened => old(files)
                       case WriteFailed(_, _) => old(files)[name := Partial(Items(aged), write)]
    {
      var items := [];
      for i := 0 to |aged|
        invariant items == Items(aged[..i])
      {
        assert aged[..i + 1][..i] == aged[..i];
        items := items + [Serialise(aged[i].body)];
      }
      assert aged[..|aged|] == aged;
      match write
      case Written =>
        files := files[name := File(items, true)];
        ok := true;
      case NotOpened =>
        ok := false;
      case WriteFailed(n, closed) =>
        files := files[name := File(Landed(items, n), closed)];
        ok := false;
    }

    method RunArchival(cutoff: int, stamp: nat, a: Answers)
      modifies this
      ensures State() == Archive(old(State()), cutoff, stamp, a)
    {
      var aged, recent := OldSpans(cutoff);
      if aged == [] {
        return;
      }
      var name := ArchiveName(stamp);
      var ok := WriteFile(name, aged, a.write);
      if !ok {
        return;  // logged, rolled back
      }
      if a.s3 && a.uploads {
        bucket := bucket[name := files[name]];
      }
      if a.commit.Committed? || a.commit.applied {
        hot := recent;
      }
    }

    // The rows for the items whose span id the database does not hold yet.
    method Restore(items: seq<Item>) returns (added: seq<Span>, restored: nat)
      ensures added == Rows(Absent(items, SpanIds(hot)), nextKey)
      ensures restored == |Absent(items, SpanIds(hot))|
    {
      added, restored := [], 0;
      ghost var absent: seq<Item> := [];
      for i := 0 to |items|
        invariant absent == Absent(items[..i], SpanIds(hot))
        invariant added == Rows(absent, nextKey) && restored == |absent|
      {
        assert items[..i + 1][..i] == items[..i];
        var found := IsHot(items[i].spanId);
        if !found {
          RowsSnoc(absent, items[i], nextKey);
          added := added + [Span(nextKey + restored, None, Deserialise(items[i]))];
          restored := restored + 1;
          absent := absent + [items[i]];
        }
      }
      assert items[..|items|] == items;
    }

    method FetchFile(name: string, a: Answers)
      modifies this`files
      ensures State() == Fetch(old(State()), name, a)
    {
      if name !in files && a.s3 && a.downloads && name in bucket {
        files := files[name := bucket[name]];
      }
    }

    method HydrateArchive(stamp: nat, a: Answers) returns (result: Hydration)
      modifies this
      ensures (State(), result) == Hydrate(old(State()), stamp, a)
    {
      var name := ArchiveName(stamp);
      FetchFile(name, a);
      if name !in files || !files[name].complete {
        return HydrationError;
      }
      var added, restored := Restore(files[name].items);
      match a.commit
      case Committed =>
        hot, nextKey := hot + added, nextKey + restored;
        result := Restored(restored);
      case CommitRaised(applied) =>
        if applied {
          hot, nextKey := hot + added, nextKey + restored;
        }
        result := HydrationError;
    }

    // The query for a committed row with the given span id.
    method IsHot(spanId: string) returns (found: bool)
      ensures found <==> spanId in SpanIds(hot)
    {
      found := exists s :: s in hot && s.body.spanId == spanId;
    }
  }
}
