/**
  The embedding cache: vectors keyed by a hash of the text, looked up and computed in chunks.

  The model and the hash are parameters, and vectors are what the store keeps exactly.  Nothing is
  assumed of the hash until a property needs it.
*/
module EmbeddingCache {
  import opened Options
  import Sequences

  datatype Vector = Vector(values: seq<real>)

  datatype Setup = Setup(hash: string -> string, model: string -> Vector)

  // The SQLite table: text hash -> vector.
  type Table = map<string, Vector>

  datatype Result = Ok(vectors: seq<Vector>) | EmbeddingError

  // Whether the model loads, and whether encoding the i-th chunk succeeds.
  datatype Answers = Answers(loads: bool, encodes: nat -> bool)

  const CHUNK := 500

  function ChunkOf(texts: seq<string>): (n: nat)
    requires texts != []
    ensures 0 < n <= |texts| && n <= CHUNK
  {
    if |texts| < CHUNK then |texts| else CHUNK
  }

  // ---------------------------------------------------------------- the table

  // `dict(zip(hashes, texts))`: of two texts with one hash the later one stays.
  function HashToText(p: Setup, chunk: seq<string>): (m: map<string, string>)
    ensures forall h <- m :: m[h] in chunk && p.hash(m[h]) == h
    ensures forall t <- chunk :: p.hash(t) in m
  {
    if chunk == [] then map[]
    else HashToText(p, chunk[..|chunk| - 1])[p.hash(chunk[|chunk| - 1]) := chunk[|chunk| - 1]]
  }

  function GetMany(p: Setup, table: Table, chunk: seq<string>): map<string, Vector> {
    map t | t in chunk && p.hash(t) in table && HashToText(p, chunk)[p.hash(t)] == t :: table[p.hash(t)]
  }

  function InsertAll(p: Setup, table: Table, texts: seq<string>, vectors: seq<Vector>): Table
    requires |texts| == |vectors|
  {
    if texts == [] then table
    else
      var n := |texts| - 1;
      InsertAll(p, table, texts[..n], vectors[..n])[p.hash(texts[n]) := vectors[n]]
  }

  function SetMany(p: Setup, table: Table, texts: seq<string>, vectors: seq<Vector>): Table {
    if texts == [] || |texts| != |vectors| then table else InsertAll(p, table, texts, vectors)
  }

  // ---------------------------------------------------------------- one call

  function LookUp(p: Setup, table: Table, texts: seq<string>, found: map<string, Vector>): map<string, Vector>
    decreases |texts|
  {
    if texts == [] then found
    else LookUp(p, table, texts[ChunkOf(texts)..], found + GetMany(p, table, texts[..ChunkOf(texts)]))
  }

  function Missing(texts: seq<string>, cached: map<string, Vector>): seq<string> {
    if texts == [] then []
    else
      var rest := Missing(texts[..|texts| - 1], cached);
      if texts[|texts| - 1] in cached then rest else rest + [texts[|texts| - 1]]
  }

  function ModelOf(p: Setup, texts: seq<string>): seq<Vector> {
    seq(|texts|, i requires 0 <= i < |texts| => p.model(texts[i]))
  }

  // The chunks from the i-th on; None when one of them raises.
  function EncodeAll(p: Setup, texts: seq<string>, i: nat, a: Answers): Option<seq<Vector>>
    decreases |texts|
  {
    if texts == [] then Some([])
    else if !a.encodes(i) then None
    else Prepend(ModelOf(p, texts[..ChunkOf(texts)]), EncodeAll(p, texts[ChunkOf(texts)..], i + 1, a))
  }

  function Prepend(done: seq<Vector>, rest: Option<seq<Vector>>): Option<seq<Vector>> {
    if rest.None? then None else Some(done + rest.value)
  }

  lemma PrependTwice(done: seq<Vector>, more: seq<Vector>, rest: Option<seq<Vector>>)
    ensures Prepend(done, Prepend(more, rest)) == Prepend(done + more, rest)
    ensures Prepend([], rest) == rest
  {
    if rest.Some? {
      assert done + (more + rest.value) == done + more + rest.value;
      assert [] + rest.value == rest.value;
    }
  }

  // What the model was asked to encode.
  function Asked(texts: seq<string>, i: nat, a: Answers): seq<string>
    decreases |texts|
  {
    if texts == [] then []
    else texts[..ChunkOf(texts)] + if a.encodes(i) then Asked(texts[ChunkOf(texts)..], i + 1, a) else []
  }

  function Merge(cached: map<string, Vector>, texts: seq<string>, vectors: seq<Vector>): map<string, Vector>
    requires |texts| == |vectors|
  {
    if texts == [] then cached
    else
      var n := |texts| - 1;
      Merge(cached, texts[..n], vectors[..n])[texts[n] := vectors[n]]
  }

  function Collect(texts: seq<string>, cached: map<string, Vector>): Result {
    if forall t <- texts :: t in cached
    then Ok(seq(|texts|, i requires 0 <= i < |texts| => cached[texts[i]]))
    else EmbeddingError
  }

  datatype Embedded = Embedded(result: Result, table: Table, asked: seq<string>)

  function EmbedSpec(p: Setup, table: Table, texts: seq<string>, a: Answers): Embedded {
    var cached := LookUp(p, table, texts, map[]);
    var missing := Missing(texts, cached);
    if missing == [] then Embedded(Collect(texts, cached), table, [])
    else if !a.loads then Embedded(EmbeddingError, table, [])
    else
      var asked := Asked(missing, 0, a);
      match EncodeAll(p, missing, 0, a)
      case None => Embedded(EmbeddingError, table, asked)
      case Some(vectors) =>
        EncodesAreTheModel(p, missing, 0, a);
        Embedded(Collect(texts, Merge(cached, missing, vectors)), SetMany(p, table, missing, vectors), asked)
  }

  lemma PrependNothing(done: seq<Vector>)
    ensures Prepend(done, Some([])) == Some(done)
  {
    assert done + [] == done;
  }

  lemma AskedChunk(asked: seq<string>, left: seq<string>, i: nat, a: Answers)
    requires left != []
    ensures var n := ChunkOf(left);
            asked + Asked(left, i, a)
            == if a.encodes(i) then asked + left[..n] + Asked(left[n..], i + 1, a) else asked + left[..n]
  {
    var n := ChunkOf(left);
    if a.encodes(i) {
      assert asked + (left[..n] + Asked(left[n..], i + 1, a)) == asked + left[..n] + Asked(left[n..], i + 1, a);
    } else {
      assert left[..n] + [] == left[..n];
    }
  }

  lemma ModelOfParts(p: Setup, texts: seq<string>, n: nat)
    requires n <= |texts|
    ensures ModelOf(p, texts) == ModelOf(p, texts[..n]) + ModelOf(p, texts[n..])
  {
  }

  lemma {:induction false} EncodesAreTheModel(p: Setup, texts: seq<string>, i: nat, a: Answers)
    ensures EncodeAll(p, texts, i, a).Some? ==>
              EncodeAll(p, texts, i, a).value == ModelOf(p, texts) && Asked(texts, i, a) == texts
    decreases |texts|
  {
    if texts != [] {
      var n := ChunkOf(texts);
      EncodesAreTheModel(p, texts[n..], i + 1, a);
      if EncodeAll(p, texts, i, a).Some? {
        ModelOfParts(p, texts, n);
        Sequences.SplitAt(texts, n);
      }
    }
  }

  lemma {:induction false} MissingContent(texts: seq<string>, cached: map<string, Vector>)
    ensures forall t :: t in Missing(texts, cached) <==> t in texts && t !in cached
  {
    if texts != [] {
      MissingContent(texts[..|texts| - 1], cached);
      assert forall t :: t in texts <==> t in texts[..|texts| - 1] || t == texts[|texts| - 1];
    }
  }

  lemma {:induction false} NothingMissing(texts: seq<string>, cached: map<string, Vector>)
    requires forall t <- texts :: t in cached
    ensures Missing(texts, cached) == []
  {
    if texts != [] {
      NothingMissing(texts[..|texts| - 1], cached);
    }
  }

  lemma CollectsTheModel(p: Setup, texts: seq<string>, cached: map<string, Vector>)
    requires forall t <- texts :: t in cached && cached[t] == p.model(t)
    ensures Collect(texts, cached) == Ok(ModelOf(p, texts))
  {
  }

  lemma LastText(p: Setup, texts: seq<string>)
    requires texts != []
    ensures var n := |texts| - 1;
            && ModelOf(p, texts)[..n] == ModelOf(p, texts[..n]) && ModelOf(p, texts)[n] == p.model(texts[n])
            && (forall t :: t in texts <==> t in texts[..n] || t == texts[n])
  {
  }

  lemma {:induction false} MergeOfModel(p: Setup, cached: map<string, Vector>, texts: seq<string>)
    ensures var merged := Merge(cached, texts, ModelOf(p, texts));
            && (forall t :: t in merged <==> t in cached || t in texts)
            && (forall t <- merged :: merged[t] == if t in texts then p.model(t) else cached[t])
  {
    if texts != [] {
      var n := |texts| - 1;
      MergeOfModel(p, cached, texts[..n]);
      LastText(p, texts);
    }
  }

  // Whatever the hash does, a call fails only when the model does: no text is ever left without
  // an embedding.
  lemma CallsFailOnlyWithTheModel(p: Setup, table: Table, texts: seq<string>, a: Answers)
    ensures var missing := Missing(texts, LookUp(p, table, texts, map[]));
            EmbedSpec(p, table, texts, a).result.Ok?
            <==> missing == [] || (a.loads && EncodeAll(p, missing, 0, a).Some?)
    ensures EmbedSpec(p, table, texts, a).result.EmbeddingError? ==> EmbedSpec(p, table, texts, a).table == table
  {
    var cached := LookUp(p, table, texts, map[]);
    EveryTextHasAVector(p, texts, cached);
    EncodesAreTheModel(p, Missing(texts, cached), 0, a);
  }

  lemma EveryTextHasAVector(p: Setup, texts: seq<string>, cached: map<string, Vector>)
    ensures var missing := Missing(texts, cached);
            && Collect(texts, Merge(cached, missing, ModelOf(p, missing))).Ok?
            && (missing == [] ==> Collect(texts, cached).Ok?)
  {
    var missing := Missing(texts, cached);
    MissingContent(texts, cached);
    MergeOfModel(p, cached, missing);
    forall t | t in texts ensures t in cached || t in missing { }
  }

  // ---------------------------------------------------------------- agreement with the model

  // Texts of `u` with one hash have one vector.
  ghost predicate Unambiguous(p: Setup, u: set<string>) {
    forall s <- u, t <- u :: p.hash(s) == p.hash(t) ==> p.model(s) == p.model(t)
  }

  // Texts of `u` with one hash are one text.
  ghost predicate Separate(p: Setup, u: set<string>) {
    forall s <- u, t <- u :: p.hash(s) == p.hash(t) ==> s == t
  }

  // What is cached for a text of `u` is its vector.
  ghost predicate Agrees(p: Setup, table: Table, u: set<string>) {
    Unambiguous(p, u) && forall t <- u :: p.hash(t) in table ==> table[p.hash(t)] == p.model(t)
  }

  ghost predicate Within(texts: seq<string>, u: set<string>) {
    forall t <- texts :: t in u
  }

  // Whatever the hash does, the look-up finds texts it was asked for, with what their hashes have.
  ghost predicate Found(p: Setup, table: Table, texts: seq<string>, found: map<string, Vector>) {
    forall t <- found :: t in texts && p.hash(t) in table && found[t] == table[p.hash(t)]
  }

  lemma {:induction false} LookUpFinds(p: Setup, table: Table, done: seq<string>, texts: seq<string>,
                                       found: map<string, Vector>)
    requires Found(p, table, done, found)
    ensures Found(p, table, done + texts, LookUp(p, table, texts, found))
    decreases |texts|
  {
    if texts == [] {
      assert done + texts == done;
    } else {
      var n := ChunkOf(texts);
      var chunk := texts[..n];
      assert Found(p, table, done + chunk, found + GetMany(p, table, chunk));
      LookUpFinds(p, table, done + chunk, texts[n..], found + GetMany(p, table, chunk));
      assert done + chunk + texts[n..] == done + texts;
    }
  }

  lemma CachedTexts(p: Setup, table: Table, texts: seq<string>)
    ensures Found(p, table, texts, LookUp(p, table, texts, map[]))
  {
    LookUpFinds(p, table, [], texts, map[]);
    assert [] + texts == texts;
  }

  // Where hashes separate texts, the look-up misses none that is cached.
  lemma GetManyIsComplete(p: Setup, table: Table, chunk: seq<string>, u: set<string>)
    requires Separate(p, u) && Within(chunk, u)
    ensures forall t <- chunk :: p.hash(t) in table ==> t in GetMany(p, table, chunk)
  {
    forall t | t in chunk ensures HashToText(p, chunk)[p.hash(t)] == t {
      var s := HashToText(p, chunk)[p.hash(t)];
      assert s in u && t in u && p.hash(s) == p.hash(t);
    }
  }

  lemma {:induction false} LookUpIsComplete(p: Setup, table: Table, texts: seq<string>, found: map<string, Vector>,
                                            u: set<string>)
    requires Separate(p, u) && Within(texts, u)
    ensures found.Keys <= LookUp(p, table, texts, found).Keys
    ensures forall t <- texts :: p.hash(t) in table ==> t in LookUp(p, table, texts, found)
    decreases |texts|
  {
    if texts != [] {
      var n := ChunkOf(texts);
      var found' := found + GetMany(p, table, texts[..n]);
      GetManyIsComplete(p, table, texts[..n], u);
      LookUpIsComplete(p, table, texts[n..], found', u);
      forall t | t in texts && p.hash(t) in table ensures t in LookUp(p, table, texts, found) {
        assert t in texts[..n] || t in texts[n..];
        assert t in texts[..n] ==> t in found'.Keys;
      }
    }
  }

  lemma {:induction false} InsertsOfModel(p: Setup, table: Table, texts: seq<string>)
    ensures var table' := InsertAll(p, table, texts, ModelOf(p, texts));
            && (forall h :: h in table' <==> h in table || exists t <- texts :: p.hash(t) == h)
            && (forall h <- table' :: InsertedFrom(p, table, texts, h, table'[h]))
  {
    if texts != [] {
      var n := |texts| - 1;
      InsertsOfModel(p, table, texts[..n]);
      LastText(p, texts);
    }
  }

  // `v` is what `table` had for `h`, or the vector of one of `texts` with that hash.
  ghost predicate InsertedFrom(p: Setup, table: Table, texts: seq<string>, h: string, v: Vector) {
    (h in table && v == table[h]) || exists t <- texts :: p.hash(t) == h && v == p.model(t)
  }

  lemma StoringKeepsAgreement(p: Setup, table: Table, texts: seq<string>, u: set<string>)
    requires Agrees(p, table, u) && Within(texts, u)
    ensures var table' := SetMany(p, table, texts, ModelOf(p, texts));
            Agrees(p, table', u) && forall h <- table :: h in table' && table'[h] == table[h]
  {
    InsertsOfModel(p, table, texts);
    var table' := SetMany(p, table, texts, ModelOf(p, texts));
    forall t | t in u && p.hash(t) in table' ensures table'[p.hash(t)] == p.model(t) {
      assert InsertedFrom(p, table, texts, p.hash(t), table'[p.hash(t)]);
    }
    forall h | h in table ensures h in table' && table'[h] == table[h] {
      assert InsertedFrom(p, table, texts, h, table'[h]);
    }
  }

  // Whatever the hash does, no call takes anything out of the table, and one that succeeds leaves
  // the hash of every text in it.
  lemma CallsFillTheTable(p: Setup, table: Table, texts: seq<string>, a: Answers)
    ensures var e := EmbedSpec(p, table, texts, a);
            table.Keys <= e.table.Keys && (e.result.Ok? ==> forall t <- texts :: p.hash(t) in e.table)
  {
    var cached := LookUp(p, table, texts, map[]);
    var missing := Missing(texts, cached);
    CallsFailOnlyWithTheModel(p, table, texts, a);
    MissingIsFilled(p, table, texts);
    EncodesAreTheModel(p, missing, 0, a);
  }

  lemma MissingIsFilled(p: Setup, table: Table, texts: seq<string>)
    ensures var missing := Missing(texts, LookUp(p, table, texts, map[]));
            var table' := SetMany(p, table, missing, ModelOf(p, missing));
            table.Keys <= table'.Keys && forall t <- texts :: p.hash(t) in table'
  {
    var cached := LookUp(p, table, texts, map[]);
    var missing := Missing(texts, cached);
    CachedTexts(p, table, texts);
    MissingContent(texts, cached);
    InsertsOfModel(p, table, missing);
    forall t | t in texts ensures p.hash(t) in SetMany(p, table, missing, ModelOf(p, missing)) {
      assert t in cached || t in missing;
    }
  }

  // REFINEMENT: over texts that share a hash only if they share their vector, with a table that
  // agrees with the model, a call that succeeds returns the model's vector of every text in order;
  // failing or not, the table still agrees with the model and keeps what it had.
  lemma EmbedRefinesTheModel(p: Setup, table: Table, texts: seq<string>, a: Answers, u: set<string>)
    requires Agrees(p, table, u) && Within(texts, u)
    ensures var e := EmbedSpec(p, table, texts, a);
            && (e.result.Ok? ==> e.result.vectors == ModelOf(p, texts))
            && Agrees(p, e.table, u)
            && (forall h <- table :: h in e.table && e.table[h] == table[h])
  {
    var cached := LookUp(p, table, texts, map[]);
    var missing := Missing(texts, cached);
    CachedTexts(p, table, texts);
    MissingContent(texts, cached);
    assert forall t <- cached :: t in u && cached[t] == p.model(t);
    if missing == [] {
      assert forall t <- texts :: t !in missing;
      CollectsTheModel(p, texts, cached);
    } else if a.loads && EncodeAll(p, missing, 0, a).Some? {
      EncodesAreTheModel(p, missing, 0, a);
      MergedIsTheModel(p, texts, cached, missing);
      StoringKeepsAgreement(p, table, missing, u);
    }
  }

  lemma MergedIsTheModel(p: Setup, texts: seq<string>, cached: map<string, Vector>, missing: seq<string>)
    requires missing == Missing(texts, cached) && forall t <- cached :: cached[t] == p.model(t)
    ensures Collect(texts, Merge(cached, missing, ModelOf(p, missing))) == Ok(ModelOf(p, texts))
  {
    MissingContent(texts, cached);
    MergeOfModel(p, cached, missing);
    CollectsTheModel(p, texts, Merge(cached, missing, ModelOf(p, missing)));
  }

  // A call on texts that are all cached asks the model for nothing and changes nothing.
  lemma CachedTextsEncodeNothing(p: Setup, table: Table, texts: seq<string>, b: Answers, u: set<string>)
    requires Separate(p, u) && Within(texts, u) && forall t <- texts :: p.hash(t) in table
    ensures var e := EmbedSpec(p, table, texts, b); e.asked == [] && e.table == table && e.result.Ok?
  {
    var cached := LookUp(p, table, texts, map[]);
    LookUpIsComplete(p, table, texts, map[], u);
    NothingMissing(texts, cached);
  }

  // A repeated call asks the model for nothing, needs no model, and returns the same.
  lemma RepeatEncodesNothing(p: Setup, table: Table, texts: seq<string>, a: Answers, b: Answers, u: set<string>)
    requires Agrees(p, table, u) && Separate(p, u) && Within(texts, u)
    requires EmbedSpec(p, table, texts, a).result.Ok?
    ensures var e := EmbedSpec(p, table, texts, a);
            EmbedSpec(p, e.table, texts, b) == Embedded(e.result, e.table, [])
  {
    var e := EmbedSpec(p, table, texts, a);
    EmbedRefinesTheModel(p, table, texts, a, u);
    CallsFillTheTable(p, table, texts, a);
    CachedTextsEncodeNothing(p, e.table, texts, b, u);
    EmbedRefinesTheModel(p, e.table, texts, b, u);
  }

  // The texts that are not in the table, in order and as often as they occur.
  function Uncached(p: Setup, table: Table, texts: seq<string>): seq<string> {
    if texts == [] then []
    else
      var n := |texts| - 1;
      Uncached(p, table, texts[..n]) + if p.hash(texts[n]) in table then [] else [texts[n]]
  }

  lemma {:induction false} UncachedContent(p: Setup, table: Table, texts: seq<string>)
    ensures forall t <- Uncached(p, table, texts) :: t in texts && p.hash(t) !in table
  {
    if texts != [] {
      UncachedContent(p, table, texts[..|texts| - 1]);
    }
  }

  lemma {:induction false} MissingIsUncached(p: Setup, table: Table, texts: seq<string>, cached: map<string, Vector>)
    requires forall t <- texts :: t in cached <==> p.hash(t) in table
    ensures Missing(texts, cached) == Uncached(p, table, texts)
  {
    if texts != [] {
      assert texts[|texts| - 1] in texts;
      MissingIsUncached(p, table, texts[..|texts| - 1], cached);
    }
  }

  lemma {:induction false} AskedIsPrefix(texts: seq<string>, i: nat, a: Answers)
    ensures Asked(texts, i, a) <= texts
    decreases |texts|
  {
    if texts != [] {
      var n := ChunkOf(texts);
      AskedIsPrefix(texts[n..], i + 1, a);
      assert texts == texts[..n] + texts[n..];
    }
  }

  // A successful call asks the model for exactly the texts that are not in the table, in order,
  // each as often as it occurs; a call that fails may have stopped after some of them.
  lemma CallsAskTheUncached(p: Setup, table: Table, texts: seq<string>, a: Answers, u: set<string>)
    requires Separate(p, u) && Within(texts, u)
    ensures var e := EmbedSpec(p, table, texts, a);
            && e.asked <= Uncached(p, table, texts)
            && (e.result.Ok? ==> e.asked == Uncached(p, table, texts))
  {
    var cached := LookUp(p, table, texts, map[]);
    CachedTexts(p, table, texts);
    LookUpIsComplete(p, table, texts, map[], u);
    MissingIsUncached(p, table, texts, cached);
    AskedIsPrefix(Missing(texts, cached), 0, a);
    EncodesAreTheModel(p, Missing(texts, cached), 0, a);
  }

  // One call after another; the first to succeed on a text is the last to ask for it.
  datatype Call = Call(texts: seq<string>, answers: Answers)

  function TableAfter(p: Setup, table: Table, calls: seq<Call>): Table {
    if calls == [] then table
    else
      var n := |calls| - 1;
      EmbedSpec(p, TableAfter(p, table, calls[..n]), calls[n].texts, calls[n].answers).table
  }

  function CallAt(p: Setup, table: Table, calls: seq<Call>, i: nat): Embedded
    requires i < |calls|
  {
    EmbedSpec(p, TableAfter(p, table, calls[..i]), calls[i].texts, calls[i].answers)
  }

  ghost predicate CallsWithin(calls: seq<Call>, u: set<string>) {
    forall i :: 0 <= i < |calls| ==> Within(calls[i].texts, u)
  }

  lemma LastCallGrows(p: Setup, table: Table, calls: seq<Call>)
    requires calls != []
    ensures TableAfter(p, table, calls[..|calls| - 1]).Keys <= TableAfter(p, table, calls).Keys
  {
    var n := |calls| - 1;
    CallsFillTheTable(p, TableAfter(p, table, calls[..n]), calls[n].texts, calls[n].answers);
  }

  lemma {:induction false} TablesGrow(p: Setup, table: Table, calls: seq<Call>, k: nat)
    requires k <= |calls|
    ensures TableAfter(p, table, calls[..k]).Keys <= TableAfter(p, table, calls).Keys
  {
    if k == |calls| {
      assert calls[..k] == calls;
    } else {
      var init := calls[..|calls| - 1];
      assert init[..k] == calls[..k];
      TablesGrow(p, table, init, k);
      LastCallGrows(p, table, calls);
    }
  }

  lemma {:induction false} TablesAgree(p: Setup, table: Table, calls: seq<Call>, u: set<string>)
    requires Agrees(p, table, u) && CallsWithin(calls, u)
    ensures Agrees(p, TableAfter(p, table, calls), u)
  {
    if calls != [] {
      var n := |calls| - 1;
      TablesAgree(p, table, calls[..n], u);
      EmbedRefinesTheModel(p, TableAfter(p, table, calls[..n]), calls[n].texts, calls[n].answers, u);
    }
  }

  lemma AskedAreNew(p: Setup, table: Table, texts: seq<string>, a: Answers, u: set<string>)
    requires Separate(p, u) && Within(texts, u)
    ensures forall t <- EmbedSpec(p, table, texts, a).asked :: p.hash(t) !in table
  {
    var asked := EmbedSpec(p, table, texts, a).asked;
    CallsAskTheUncached(p, table, texts, a, u);
    UncachedContent(p, table, texts);
    forall t | t in asked ensures t in Uncached(p, table, texts) {
      var k :| 0 <= k < |asked| && asked[k] == t;
      assert Uncached(p, table, texts)[k] == t;
    }
  }

  lemma CallFills(p: Setup, table: Table, calls: seq<Call>, i: nat)
    requires i < |calls| && CallAt(p, table, calls, i).result.Ok?
    ensures forall t <- calls[i].texts :: p.hash(t) in TableAfter(p, table, calls[..i + 1])
  {
    CallsFillTheTable(p, TableAfter(p, table, calls[..i]), calls[i].texts, calls[i].answers);
    assert calls[..i + 1][..i] == calls[..i];
  }

  lemma TablesGrowBetween(p: Setup, table: Table, calls: seq<Call>, i: nat, j: nat)
    requires i <= j <= |calls|
    ensures TableAfter(p, table, calls[..i]).Keys <= TableAfter(p, table, calls[..j]).Keys
  {
    assert calls[..j][..i] == calls[..i];
    TablesGrow(p, table, calls[..j], i);
  }

  lemma EmbeddedTextsStay(p: Setup, table: Table, calls: seq<Call>, i: nat, j: nat)
    requires i < j <= |calls| && CallAt(p, table, calls, i).result.Ok?
    ensures forall t <- calls[i].texts :: p.hash(t) in TableAfter(p, table, calls[..j])
  {
    CallFills(p, table, calls, i);
    TablesGrowBetween(p, table, calls, i + 1, j);
    forall t | t in calls[i].texts ensures p.hash(t) in TableAfter(p, table, calls[..j]).Keys {
      assert p.hash(t) in TableAfter(p, table, calls[..i + 1]).Keys;
    }
  }

  // Over any run of calls, a text that one call embedded is never asked of the model again.
  lemma EmbeddedTextsAreNotAskedAgain(p: Setup, table: Table, calls: seq<Call>, i: nat, j: nat, u: set<string>)
    requires Separate(p, u) && CallsWithin(calls, u) && i < j < |calls|
    requires CallAt(p, table, calls, i).result.Ok?
    ensures forall t <- CallAt(p, table, calls, j).asked :: t !in calls[i].texts
  {
    EmbeddedTextsStay(p, table, calls, i, j);
    AskedAreNew(p, TableAfter(p, table, calls[..j]), calls[j].texts, calls[j].answers, u);
  }

  // ---------------------------------------------------------------- colliding hashes

  // The model loads and every chunk is encoded.
  const GOOD := Answers(true, i => true)

  lemma EmbedOne(p: Setup, table: Table, t: string)
    ensures EmbedSpec(p, table, [t], GOOD)
            == if p.hash(t) in table then Embedded(Ok([table[p.hash(t)]]), table, [])
               else Embedded(Ok([p.model(t)]), table[p.hash(t) := p.model(t)], [t])
  {
    var texts := [t];
    assert ChunkOf(texts) == 1 && texts[..1] == texts && texts[1..] == [] && texts[..0] == [];
    var found := GetMany(p, table, texts);
    assert HashToText(p, texts)[p.hash(t)] == t;
    assert map[] + found == found;
    assert LookUp(p, table, texts, map[]) == found;
    if p.hash(t) in table {
      assert Missing(texts, found) == [];
      assert Collect(texts, found).vectors == [table[p.hash(t)]];
    } else {
      assert Missing(texts, found) == texts;
      EncodesAreTheModel(p, texts, 0, GOOD);
      assert EncodeAll(p, texts[1..], 1, GOOD).Some?;
      assert EncodeAll(p, texts, 0, GOOD).Some?;
      var vectors := ModelOf(p, texts);
      assert vectors == [p.model(t)] && vectors[..0] == [];
      assert InsertAll(p, table, texts[..0], vectors[..0]) == table;
      assert SetMany(p, table, texts, vectors) == table[p.hash(t) := p.model(t)];
      MergedIsTheModel(p, texts, found, texts);
    }
  }

  // Embedding `t` and then `s` gives the model's vector of `s` exactly when their hashes differ
  // or their vectors are the same.
  lemma SecondTextIsRightIff(p: Setup, t: string, s: string)
    ensures CallAt(p, map[], TwoCalls(t, s), 1).result == Ok([p.model(s)])
            <==> p.hash(t) != p.hash(s) || p.model(t) == p.model(s)
    ensures CallAt(p, map[], TwoCalls(t, s), 1).result.Ok?
  {
    var calls := TwoCalls(t, s);
    EmbedOne(p, map[], t);
    EmbedOne(p, map[p.hash(t) := p.model(t)], s);
    assert map[][p.hash(t) := p.model(t)] == map[p.hash(t) := p.model(t)];
    assert calls[..1][..0] == [] && TableAfter(p, map[], calls[..1]) == EmbedSpec(p, map[], [t], GOOD).table;
  }

  ghost function TwoCalls(t: string, s: string): seq<Call> {
    [Call([t], GOOD), Call([s], GOOD)]
  }

  // Every call that succeeds, after any calls on an empty table, returns the model's vectors.
  ghost predicate CallsAreRight(p: Setup, u: set<string>) {
    forall calls: seq<Call>, i: nat :: i < |calls| && CallsWithin(calls, u) && CallAt(p, map[], calls, i).result.Ok? ==>
      CallAt(p, map[], calls, i).result.vectors == ModelOf(p, calls[i].texts)
  }

  lemma UnambiguousCallsAreRight(p: Setup, u: set<string>)
    requires Unambiguous(p, u)
    ensures CallsAreRight(p, u)
  {
    forall calls: seq<Call>, i: nat | i < |calls| && CallsWithin(calls, u) && CallAt(p, map[], calls, i).result.Ok?
      ensures CallAt(p, map[], calls, i).result.vectors == ModelOf(p, calls[i].texts)
    {
      TablesAgree(p, map[], calls[..i], u);
      EmbedRefinesTheModel(p, TableAfter(p, map[], calls[..i]), calls[i].texts, calls[i].answers, u);
    }
  }

  // CORRECTNESS: over texts `u`, every run of calls returns the model's vectors exactly when texts
  // of `u` with one hash have one vector.
  lemma CallsAreRightIff(p: Setup, u: set<string>)
    ensures CallsAreRight(p, u) <==> Unambiguous(p, u)
  {
    if Unambiguous(p, u) {
      UnambiguousCallsAreRight(p, u);
    } else {
      var t, s :| t in u && s in u && p.hash(t) == p.hash(s) && p.model(t) != p.model(s);
      SecondTextIsRightIff(p, t, s);
      assert CallsWithin(TwoCalls(t, s), u);
      assert ModelOf(p, TwoCalls(t, s)[1].texts) == [p.model(s)];
    }
  }

  // If the first call on an empty table succeeds, repeating it asks the model for nothing.
  predicate FreeRepeat(p: Setup, texts: seq<string>, a: Answers, b: Answers) {
    var e := EmbedSpec(p, map[], texts, a);
    e.result.Ok? ==> EmbedSpec(p, e.table, texts, b).asked == []
  }

  ghost predicate RepeatsAreFree(p: Setup, u: set<string>) {
    forall texts: seq<string>, a: Answers, b: Answers :: Within(texts, u) ==> FreeRepeat(p, texts, a, b)
  }

  lemma SeparateRepeatIsFree(p: Setup, texts: seq<string>, a: Answers, b: Answers, u: set<string>)
    requires Separate(p, u) && Within(texts, u)
    ensures FreeRepeat(p, texts, a, b)
  {
    var e := EmbedSpec(p, map[], texts, a);
    if e.result.Ok? {
      CallsFillTheTable(p, map[], texts, a);
      CachedTextsEncodeNothing(p, e.table, texts, b, u);
    }
  }

  lemma LookUpTwo(p: Setup, table: Table, s: string, t: string)
    requires s != t && p.hash(s) == p.hash(t) && p.hash(t) in table
    ensures Missing([s, t], LookUp(p, table, [s, t], map[])) == [s]
  {
    var texts, found := [s, t], GetMany(p, table, [s, t]);
    assert ChunkOf(texts) == 2 && texts[..2] == texts && texts[2..] == [];
    assert texts[..1] == [s] && [s][..0] == [];
    assert HashToText(p, texts)[p.hash(t)] == t;
    assert map[] + found == found && LookUp(p, table, texts, map[]) == found;
    assert s !in found && t in found;
    assert Missing([s], found) == [s];
  }

  // Two texts with one hash, asked for together: the repeat embeds the first again.
  lemma CollidingTextsAreAskedAgain(p: Setup, s: string, t: string)
    requires s != t && p.hash(s) == p.hash(t)
    ensures var e := EmbedSpec(p, map[], [s, t], GOOD);
            e.result.Ok? && EmbedSpec(p, e.table, [s, t], GOOD).asked == [s]
    ensures !FreeRepeat(p, [s, t], GOOD, GOOD)
  {
    var e := EmbedSpec(p, map[], [s, t], GOOD);
    GoodCallsEncode(p, Missing([s, t], LookUp(p, map[], [s, t], map[])), 0, GOOD);
    CallsFailOnlyWithTheModel(p, map[], [s, t], GOOD);
    CallsFillTheTable(p, map[], [s, t], GOOD);
    assert t in [s, t];
    LookUpTwo(p, e.table, s, t);
    GoodCallsEncode(p, [s], 0, GOOD);
    EncodesAreTheModel(p, [s], 0, GOOD);
  }

  lemma {:induction false} GoodCallsEncode(p: Setup, texts: seq<string>, i: nat, a: Answers)
    requires forall k: nat :: a.encodes(k)
    ensures EncodeAll(p, texts, i, a).Some?
    decreases |texts|
  {
    if texts != [] {
      GoodCallsEncode(p, texts[ChunkOf(texts)..], i + 1, a);
    }
  }

  lemma SeparateRepeatsAreFree(p: Setup, u: set<string>)
    requires Separate(p, u)
    ensures RepeatsAreFree(p, u)
  {
    forall texts: seq<string>, a: Answers, b: Answers | Within(texts, u) ensures FreeRepeat(p, texts, a, b) {
      SeparateRepeatIsFree(p, texts, a, b, u);
    }
  }

  lemma CollidingRepeatsAreNot(p: Setup, u: set<string>, s: string, t: string)
    requires s in u && t in u && s != t && p.hash(s) == p.hash(t)
    ensures !RepeatsAreFree(p, u)
  {
    CollidingTextsAreAskedAgain(p, s, t);
    assert Within([s, t], u);
  }

  // Repeats are free exactly when hashes separate the texts: texts with one hash and one vector
  // are served rightly, but those looked up in one chunk are embedded again every time.
  lemma RepeatsAreFreeIff(p: Setup, u: set<string>)
    ensures RepeatsAreFree(p, u) <==> Separate(p, u)
  {
    if Separate(p, u) {
      SeparateRepeatsAreFree(p, u);
    } else {
      var s, t :| s in u && t in u && p.hash(s) == p.hash(t) && s != t;
      CollidingRepeatsAreNot(p, u, s, t);
    }
  }

  // ---------------------------------------------------------------- the provider

  // What the rows with the hashes `all` but for those in `rows` give.
  ghost function Fetched(p: Setup, table: Table, texts: seq<string>, all: set<string>, rows: set<string>)
    : map<string, Vector>
  {
    map t | t in texts && p.hash(t) in table && HashToText(p, texts)[p.hash(t)] == t && p.hash(t) in all - rows
      :: table[p.hash(t)]
  }

  lemma FetchedOneMore(p: Setup, table: Table, texts: seq<string>, all: set<string>, rows: set<string>, h: string)
    requires h in rows && h in all && h in table && h in HashToText(p, texts)
    ensures Fetched(p, table, texts, all, rows - {h})
            == Fetched(p, table, texts, all, rows)[HashToText(p, texts)[h] := table[h]]
  {
  }

  lemma FetchedEnds(p: Setup, table: Table, texts: seq<string>)
    ensures var all := table.Keys * HashToText(p, texts).Keys;
            && Fetched(p, table, texts, all, all) == map[]
            && Fetched(p, table, texts, all, {}) == GetMany(p, table, texts)
  {
  }

  // `EmbeddingCache`: one SQLite table.
  class Cache {
    const p: Setup
    var table: Table

    constructor (p: Setup)
      ensures this.p == p && table == map[]
    {
      this.p := p;
      table := map[];
    }

    method HashesOf(texts: seq<string>) returns (hashToText: map<string, string>)
      ensures hashToText == HashToText(p, texts)
    {
      hashToText := map[];
      for i := 0 to |texts|
        invariant hashToText == HashToText(p, texts[..i])
      {
        assert texts[..i + 1][..i] == texts[..i];
        hashToText := hashToText[p.hash(texts[i]) := texts[i]];
      }
      assert texts[..|texts|] == texts;
    }

    method FetchMany(texts: seq<string>) returns (results: map<string, Vector>)
      ensures results == GetMany(p, table, texts)
    {
      var hashToText := HashesOf(texts);
      // the rows of the SELECT, in no particular order
      ghost var all := table.Keys * hashToText.Keys;
      var rows := table.Keys * hashToText.Keys;
      results := map[];
      FetchedEnds(p, table, texts);
      while rows != {}
        invariant rows <= all && results == Fetched(p, table, texts, all, rows)
        decreases |rows|
      {
        var h :| h in rows;
        FetchedOneMore(p, table, texts, all, rows, h);
        results := results[hashToText[h] := table[h]];
        rows := rows - {h};
      }
    }

    method StoreMany(texts: seq<string>, vectors: seq<Vector>)
      modifies this
      ensures table == SetMany(p, old(table), texts, vectors)
    {
      if texts == [] || |texts| != |vectors| {
        return;
      }
      for i := 0 to |texts|
        invariant table == InsertAll(p, old(table), texts[..i], vectors[..i])
      {
        assert texts[..i + 1][..i] == texts[..i] && vectors[..i + 1][..i] == vectors[..i];
        table := table[p.hash(texts[i]) := vectors[i]];
      }
      assert texts[..|texts|] == texts && vectors[..|texts|] == vectors;
    }
  }

  // `LocalEmbeddingProvider`, with a record of what its model was asked.
  class Provider {
    const cache: Cache
    var asked: seq<string>

    constructor (cache: Cache)
      ensures this.cache == cache && asked == []
    {
      this.cache := cache;
      asked := [];
    }

    method LookUpChunks(texts: seq<string>) returns (cached: map<string, Vector>)
      ensures cached == LookUp(cache.p, cache.table, texts, map[])
    {
      cached := map[];
      var i := 0;
      while i < |texts|
        invariant 0 <= i <= |texts|
        invariant LookUp(cache.p, cache.table, texts[i..], cached) == LookUp(cache.p, cache.table, texts, map[])
      {
        var n := if i + CHUNK < |texts| then i + CHUNK else |texts|;
        assert texts[i..][..ChunkOf(texts[i..])] == texts[i..n] && texts[i..][ChunkOf(texts[i..])..] == texts[n..];
        var found := cache.FetchMany(texts[i..n]);
        cached := cached + found;
        i := n;
      }
    }

    method FindMissing(texts: seq<string>, cached: map<string, Vector>) returns (missing: seq<string>)
      ensures missing == Missing(texts, cached)
    {
      missing := [];
      for i := 0 to |texts|
        invariant missing == Missing(texts[..i], cached)
      {
        assert texts[..i + 1][..i] == texts[..i];
        if texts[i] !in cached {
          missing := missing + [texts[i]];
        }
      }
      assert texts[..|texts|] == texts;
    }

    // The model on the chunks of `missing`; the i-th chunk raises unless `a.encodes(i)`.
    method EncodeChunks(missing: seq<string>, a: Answers) returns (vectors: Option<seq<Vector>>)
      modifies this
      ensures vectors == EncodeAll(cache.p, missing, 0, a)
      ensures asked == old(asked) + Asked(missing, 0, a)
    {
      var done: seq<Vector> := [];
      var i, k := 0, 0;
      assert missing[0..] == missing;
      PrependTwice([], [], EncodeAll(cache.p, missing, 0, a));
      while i < |missing|
        invariant 0 <= i <= |missing|
        invariant asked + Asked(missing[i..], k, a) == old(asked) + Asked(missing, 0, a)
        invariant EncodeAll(cache.p, missing, 0, a) == Prepend(done, EncodeAll(cache.p, missing[i..], k, a))
      {
        var n := if i + CHUNK < |missing| then i + CHUNK else |missing|;
        var left, chunk := missing[i..], missing[i..n];
        assert left[..ChunkOf(left)] == chunk && left[ChunkOf(left)..] == missing[n..];
        AskedChunk(asked, left, k, a);
        asked := asked + chunk;
        if !a.encodes(k) {
          return None;
        }
        PrependTwice(done, ModelOf(cache.p, chunk), EncodeAll(cache.p, missing[n..], k + 1, a));
        done := done + ModelOf(cache.p, chunk);
        i, k := n, k + 1;
      }
      PrependNothing(done);
      vectors := Some(done);
    }

    method MergeInto(cached: map<string, Vector>, missing: seq<string>, vectors: seq<Vector>)
      returns (merged: map<string, Vector>)
      requires |missing| == |vectors|
      ensures merged == Merge(cached, missing, vectors)
    {
      merged := cached;
      for i := 0 to |missing|
        invariant merged == Merge(cached, missing[..i], vectors[..i])
      {
        assert missing[..i + 1][..i] == missing[..i] && vectors[..i + 1][..i] == vectors[..i];
        merged := merged[missing[i] := vectors[i]];
      }
      assert missing[..|missing|] == missing && vectors[..|missing|] == vectors;
    }

    method Reconstruct(texts: seq<string>, cached: map<string, Vector>) returns (result: Result)
      ensures result == Collect(texts, cached)
    {
      var final: seq<Vector> := [];
      for i := 0 to |texts|
        invariant forall j :: 0 <= j < i ==> texts[j] in cached
        invariant |final| == i && forall j :: 0 <= j < i ==> final[j] == cached[texts[j]]
      {
        if texts[i] !in cached {
          return EmbeddingError;
        }
        final := final + [cached[texts[i]]];
      }
      result := Ok(final);
    }

    method Embed(texts: seq<string>, a: Answers) returns (result: Result)
      modifies this, cache
      ensures var e := EmbedSpec(cache.p, old(cache.table), texts, a);
              result == e.result && cache.table == e.table && asked == old(asked) + e.asked
    {
      if texts == [] {
        return Ok([]);
      }
      var cached := LookUpChunks(texts);
      var missing := FindMissing(texts, cached);
      if missing != [] {
        if !a.loads {
          return EmbeddingError;
        }
        EncodesAreTheModel(cache.p, missing, 0, a);
        var vectors := EncodeChunks(missing, a);
        if vectors.None? {
          return EmbeddingError;
        }
        cache.StoreMany(missing, vectors.value);
        cached := MergeInto(cached, missing, vectors.value);
      }
      result := Reconstruct(texts, cached);
    }
  }
}
