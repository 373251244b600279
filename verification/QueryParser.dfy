/**
  The log query language: building the tree from classified tokens, evaluating it in memory, and
  compiling it to a parameterised SQL condition.
*/
module QueryParser {
  import Text

  datatype Node =
    | FieldMatch(field: string, value: string)
    | TextMatch(text: string)
    | AndNode(left: Node, right: Node)
    | OrNode(left: Node, right: Node)
  {
    predicate Leaf() { FieldMatch? || TextMatch? }
  }

  // An entry of the parser's `nodes` list: an operator word or a term.
  datatype Item = And | Or | Term(node: Node)

  // ---------------------------------------------------------------- building the tree

  function Join(op: Item, left: Node, right: Node): Node {
    if op.Or? then OrNode(left, right) else AndNode(left, right)
  }

  // What a term would be joined with after `items`: the last operator if one is pending, else AND.
  function Pending(items: seq<Item>): Item {
    if items != [] && !items[|items| - 1].Term? then items[|items| - 1] else And
  }

  // Reading term by term from the left: an operator changes nothing until a term follows it.
  function Parsed(items: seq<Item>): Node {
    if items == [] then TextMatch("")
    else
      var init, last := items[..|items| - 1], items[|items| - 1];
      match last
      case Term(node) => if init == [] then node else Join(Pending(init), Parsed(init), node)
      case _ => Parsed(init)
  }

  // The loop of `parse_query` over the classified tokens.
  method BuildTree(items: seq<Item>) returns (current: Node)
    ensures current == Parsed(items)
  {
    if items == [] {
      return TextMatch("");
    }
    var i := 0;
    if items[0].Term? {
      current, i := items[0].node, 1;
    } else {
      current := TextMatch("");
    }
    while i < |items|
      invariant 0 <= i <= |items|
      invariant current == Parsed(items[..i])
      invariant i == 0 ==> !items[0].Term?
      invariant i > 0 && !items[i - 1].Term? ==> i < |items| && !items[i].Term?
    {
      assert items[..i + 1][..i] == items[..i];
      if !items[i].Term? {
        if i + 1 >= |items| {
          assert items == items[..i + 1];
          return;  // dangling operator
        }
        if !items[i + 1].Term? {
          i := i + 1;  // two operators in a row: skip the first
        } else {
          assert items[..i + 2][..i + 1] == items[..i + 1];
          current := if items[i].And? then AndNode(current, items[i + 1].node) else OrNode(current, items[i + 1].node);
          i := i + 2;
        }
      } else {
        current := AndNode(current, items[i].node);  // implicit AND
        i := i + 1;
      }
    }
    assert items[..i] == items;
  }

  // Adding an operator and a term joins that term to whatever was parsed before, for every list:
  // empty, ending in an operator, or with operators in a row.
  lemma AppendingATermKeepsTheRest(items: seq<Item>, op: Item, t: Node)
    requires !op.Term?
    ensures Parsed(items + [op, Term(t)]) == Join(op, Parsed(items), t)
    ensures Parsed(items + [Term(t)]) == if items == [] then t else Join(Pending(items), Parsed(items), t)
    ensures Parsed(items + [op]) == Parsed(items)
  {
    TermAppended(items, t);
    OperatorAppended(items, op);
    assert items + [op, Term(t)] == items + [op] + [Term(t)];
    TermAppended(items + [op], t);
  }

  lemma TermAppended(items: seq<Item>, t: Node)
    ensures Parsed(items + [Term(t)]) == if items == [] then t else Join(Pending(items), Parsed(items), t)
  {
    assert (items + [Term(t)])[..|items|] == items;
  }

  lemma OperatorAppended(items: seq<Item>, op: Item)
    requires !op.Term?
    ensures Parsed(items + [op]) == Parsed(items) && Pending(items + [op]) == op
  {
    assert (items + [op])[..|items|] == items;
  }

  function Leaves(n: Node): seq<Node> {
    match n
    case AndNode(l, r) => Leaves(l) + Leaves(r)
    case OrNode(l, r) => Leaves(l) + Leaves(r)
    case _ => [n]
  }

  function Terms(items: seq<Item>): seq<Node> {
    if items == [] then []
    else Terms(items[..|items| - 1]) + if items[|items| - 1].Term? then [items[|items| - 1].node] else []
  }

  ghost predicate TermsAreLeaves(items: seq<Item>) {
    forall i <- items :: i.Term? ==> i.node.Leaf()
  }

  // No term is dropped and none is invented: the leaves, in order, are the terms, after one
  // empty text when the query does not begin with a term.
  lemma {:induction false} LeavesAreTheTerms(items: seq<Item>)
    requires TermsAreLeaves(items)
    ensures Leaves(Parsed(items)) == (if items == [] || !items[0].Term? then [TextMatch("")] else []) + Terms(items)
  {
    if items != [] {
      LeavesAreTheTerms(items[..|items| - 1]);
    }
  }

  // ---------------------------------------------------------------- evaluation in memory

  // One log record, seen through the two leaf tests of the in-memory engine.
  datatype Record = Record(containsText: string -> bool, fieldIs: (string, string) -> bool)

  function EvaluateInMemory(n: Node, log: Record): bool {
    match n
    case TextMatch(text) => text == "" || log.containsText(text)
    case FieldMatch(field, value) => log.fieldIs(field, value)
    case AndNode(l, r) => EvaluateInMemory(l, log) && EvaluateInMemory(r, log)
    case OrNode(l, r) => EvaluateInMemory(l, log) || EvaluateInMemory(r, log)
  }

  ghost predicate Occurs(text: string, within: string) {
    exists before: string, after: string :: within == before + text + after
  }

  // A log given as its fields, its printed form and the lower-casing of strings.
  ghost function LogOf(fields: map<string, string>, shown: string, lower: string -> string): Record {
    Record(text => Occurs(lower(text), lower(shown)),
           (field, value) => (if field in fields then lower(fields[field]) else lower("")) == lower(value))
  }

  // A text is looked for anywhere in the printed log, a field is compared whole, both in lower
  // case; a field the log does not have counts as empty.
  lemma LeavesOnALog(fields: map<string, string>, shown: string, lower: string -> string,
                     text: string, field: string, value: string)
    ensures var log := LogOf(fields, shown, lower);
            && (EvaluateInMemory(TextMatch(text), log) <==> text == "" || Occurs(lower(text), lower(shown)))
            && (field in fields ==>
                  (EvaluateInMemory(FieldMatch(field, value), log) <==> lower(fields[field]) == lower(value)))
            && (field !in fields ==>
                  (EvaluateInMemory(FieldMatch(field, value), log) <==> lower("") == lower(value)))
  {
  }

  // ---------------------------------------------------------------- compilation

  type Params = map<string, string>

  // The emitted condition; every `param` is a placeholder name.
  datatype Sql =
    | Always
    | MessageLike(param: string)
    | ColumnIs(column: string, param: string)
    | JsonFieldIs(key: string, param: string)
    | Both(left: Sql, right: Sql)
    | Either(left: Sql, right: Sql)

  datatype Compiled = Compiled(sql: Sql) | InvalidField(field: string)

  function Placeholder(n: nat): string {
    "p" + Text.Decimal(n)
  }

  predicate IsIdentChar(c: char) {
    'A' <= c <= 'Z' || 'a' <= c <= 'z' || '0' <= c <= '9' || c == '_'
  }

  predicate IsIdentifier(s: string) {
    s != "" && forall c <- s :: IsIdentChar(c)
  }

  // ^[A-Za-z0-9_]+$, where $ also matches before a final newline.
  predicate FieldNameMatches(s: string) {
    IsIdentifier(s) || (|s| > 1 && s[|s| - 1] == '\n' && IsIdentifier(s[..|s| - 1]))
  }

  // Letters, digits and the underscore, by their codes.
  predicate WordCode(n: int) {
    48 <= n <= 57 || 65 <= n <= 90 || n == 95 || 97 <= n <= 122
  }

  ghost predicate Word(w: string) {
    w != "" && forall c <- w :: WordCode(c as int)
  }

  // A field can be compiled when it is a word of letters, digits and underscores, or such a word
  // and one newline at its end.
  lemma FieldNamesAreWords(s: string)
    ensures FieldNameMatches(s) <==> Word(s) || exists w: string :: Word(w) && s == w + "\n"
  {
    assert forall c: char :: IsIdentChar(c) <==> WordCode(c as int);
    if FieldNameMatches(s) && !IsIdentifier(s) {
      var w := s[..|s| - 1];
      assert Word(w) && s == w + "\n";
    }
    if w: string :| Word(w) && s == w + "\n" {
      assert s[..|s| - 1] == w;
    }
  }

  function Compile(n: Node, params: Params): (Compiled, Params) {
    var id := Placeholder(|params|);
    match n
    case TextMatch(text) =>
      if text == "" then (Compiled(Always), params)
      else (Compiled(MessageLike(id)), params[id := "%" + text + "%"])
    case FieldMatch(field, value) =>
      var params' := params[id := value];
      if field == "source" || field == "level" then (Compiled(ColumnIs(field, id)), params')
      else if FieldNameMatches(field) then (Compiled(JsonFieldIs(field, id)), params')
      else (InvalidField(field), params')
    case AndNode(l, r) =>
      var (a, params1) := Compile(l, params);
      if a.InvalidField? then (a, params1)
      else
        var (b, params2) := Compile(r, params1);
        (if b.Compiled? then Compiled(Both(a.sql, b.sql)) else b, params2)
    case OrNode(l, r) =>
      var (a, params1) := Compile(l, params);
      if a.InvalidField? then (a, params1)
      else
        var (b, params2) := Compile(r, params1);
        (if b.Compiled? then Compiled(Either(a.sql, b.sql)) else b, params2)
  }

  // `compile_to_sql`, which writes its bindings into the caller's dictionary.
  class ParamDict {
    var bindings: Params

    constructor ()
      ensures bindings == map[]
    {
      bindings := map[];
    }

    method CompileToSql(n: Node) returns (c: Compiled)
      modifies this
      ensures (c, bindings) == Compile(n, old(bindings))
      decreases n
    {
      var id := Placeholder(|bindings|);
      match n {
        case TextMatch(text) =>
          if text == "" {
            return Compiled(Always);
          }
          bindings := bindings[id := "%" + text + "%"];
          c := Compiled(MessageLike(id));
        case FieldMatch(field, value) =>
          bindings := bindings[id := value];
          if field == "source" || field == "level" {
            c := Compiled(ColumnIs(field, id));
          } else if FieldNameMatches(field) {
            c := Compiled(JsonFieldIs(field, id));
          } else {
            c := InvalidField(field);
          }
        case AndNode(l, r) =>
          c := CompileToSql(l);
          if c.Compiled? {
            var d := CompileToSql(r);
            c := if d.Compiled? then Compiled(Both(c.sql, d.sql)) else d;
          }
        case OrNode(l, r) =>
          c := CompileToSql(l);
          if c.Compiled? {
            var d := CompileToSql(r);
            c := if d.Compiled? then Compiled(Either(c.sql, d.sql)) else d;
          }
      }
    }
  }

  // One stored row, seen through the leaf tests of the SQL engine.
  datatype Row = Row(ilike: string -> bool, column: string -> string, json: string -> string)

  // The database refuses a query with an unbound placeholder; here it holds of no row.
  predicate SqlHolds(s: Sql, params: Params, row: Row) {
    match s
    case Always => true
    case MessageLike(p) => p in params && row.ilike(params[p])
    case ColumnIs(c, p) => p in params && row.column(c) == params[p]
    case JsonFieldIs(k, p) => p in params && row.json(k) == params[p]
    case Both(l, r) => SqlHolds(l, params, row) && SqlHolds(r, params, row)
    case Either(l, r) => SqlHolds(l, params, row) || SqlHolds(r, params, row)
  }

  function Placeholders(s: Sql): seq<string> {
    match s
    case Always => []
    case MessageLike(p) => [p]
    case ColumnIs(_, p) => [p]
    case JsonFieldIs(_, p) => [p]
    case Both(l, r) => Placeholders(l) + Placeholders(r)
    case Either(l, r) => Placeholders(l) + Placeholders(r)
  }

  // What the tree means on a stored row, with no placeholder in sight.
  predicate Matches(n: Node, row: Row) {
    match n
    case TextMatch(text) => text == "" || row.ilike("%" + text + "%")
    case FieldMatch(field, value) =>
      if field == "source" || field == "level" then row.column(field) == value else row.json(field) == value
    case AndNode(l, r) => Matches(l, row) && Matches(r, row)
    case OrNode(l, r) => Matches(l, row) || Matches(r, row)
  }

  // A row given as its message, its raw JSON with the top-level keys, and its two plain columns;
  // ILIKE is that of a pattern whose text has no wildcards of its own.
  ghost function RowOf(message: string, raw: string, keys: map<string, string>, source: string, level: string,
                       lower: string -> string): Row {
    Row(pattern => exists text :: pattern == "%" + text + "%"
                                  && (Occurs(lower(text), lower(message)) || Occurs(lower(text), lower(raw))),
        column => if column == "source" then source else if column == "level" then level else "",
        key => if key in keys then keys[key] else "")
  }

  lemma PatternText(text: string, other: string)
    requires "%" + text + "%" == "%" + other + "%"
    ensures text == other
  {
    assert text == ("%" + text + "%")[1..|text| + 1] && other == ("%" + other + "%")[1..|other| + 1];
  }

  // A text is looked for in the message and in the raw JSON; the two columns are compared as such,
  // and any other field as a key of the JSON.
  lemma LeavesOnARow(message: string, raw: string, keys: map<string, string>, source: string, level: string,
                     lower: string -> string, text: string, field: string, value: string)
    ensures var row := RowOf(message, raw, keys, source, level, lower);
            && (Matches(TextMatch(text), row)
                <==> text == "" || Occurs(lower(text), lower(message)) || Occurs(lower(text), lower(raw)))
            && (Matches(FieldMatch("source", value), row) <==> source == value)
            && (Matches(FieldMatch("level", value), row) <==> level == value)
            && (field != "source" && field != "level" ==>
                  (Matches(FieldMatch(field, value), row) <==> (if field in keys then keys[field] else "") == value))
  {
    var row := RowOf(message, raw, keys, source, level, lower);
    forall other: string | "%" + text + "%" == "%" + other + "%" ensures other == text {
      PatternText(text, other);
    }
    assert "source" != "level" by {
      assert "source"[0] == 's' && "level"[0] == 'l';
    }
  }

  function Bindings(n: Node): nat {
    match n
    case TextMatch(text) => if text == "" then 0 else 1
    case FieldMatch(_, _) => 1
    case AndNode(l, r) => Bindings(l) + Bindings(r)
    case OrNode(l, r) => Bindings(l) + Bindings(r)
  }

  predicate CompilableField(f: string) {
    f == "source" || f == "level" || FieldNameMatches(f)
  }

  ghost predicate Compilable(n: Node) {
    forall l <- Leaves(n) :: l.FieldMatch? ==> CompilableField(l.field)
  }

  // None of the names a compilation with `n` bindings would pick is taken.
  ghost predicate NamesFree(params: Params, n: nat) {
    forall j: nat :: |params| <= j < |params| + n ==> Placeholder(j) !in params
  }

  ghost predicate Extends(big: Params, small: Params) {
    forall k <- small :: k in big && big[k] == small[k]
  }

  // `names` is p<from>, p<from + 1>, ..., `n` of them.
  ghost predicate NamedFrom(names: seq<string>, from: nat, n: nat) {
    |names| == n && forall i :: 0 <= i < n ==> names[i] == Placeholder(from + i)
  }

  lemma PlaceholderInjective(m: nat, n: nat)
    requires Placeholder(m) == Placeholder(n)
    ensures m == n
  {
    assert Text.Decimal(m) == Placeholder(m)[1..] && Text.Decimal(n) == Placeholder(n)[1..];
    Text.DecimalInjective(m, n);
  }

  // Adding bindings p|params| .. keeps every later name free.
  ghost predicate Grown(params: Params, params': Params, n: nat) {
    && Extends(params', params)
    && |params'| == |params| + n
    && (forall k <- params' :: k in params || PickedName(k, |params|, n))
  }

  ghost predicate PickedName(k: string, from: nat, n: nat) {
    exists j: nat :: from <= j < from + n && k == Placeholder(j)
  }

  lemma GrownKeepsNamesFree(params: Params, params': Params, n: nat, more: nat)
    requires NamesFree(params, n + more) && Grown(params, params', n)
    ensures NamesFree(params', more)
  {
    forall j: nat | |params'| <= j < |params'| + more ensures Placeholder(j) !in params' {
      if Placeholder(j) in params' {
        assert Placeholder(j) !in params && PickedName(Placeholder(j), |params|, n);
        var i: nat :| |params| <= i < |params| + n && Placeholder(j) == Placeholder(i);
        PlaceholderInjective(i, j);
      }
    }
  }

  lemma GrownTransitive(a: Params, b: Params, c: Params, m: nat, n: nat)
    requires Grown(a, b, m) && Grown(b, c, n)
    ensures Grown(a, c, m + n)
  {
    forall k | k in c && k !in a ensures PickedName(k, |a|, m + n) {
      if k in b {
        assert PickedName(k, |a|, m);
        var j: nat :| |a| <= j < |a| + m && k == Placeholder(j);
      } else {
        assert PickedName(k, |b|, n);
        var j: nat :| |b| <= j < |b| + n && k == Placeholder(j);
      }
    }
  }

  lemma SizeAfterBinding(params: Params, id: string, value: string)
    ensures |params[id := value]| == |params| + if id in params then 0 else 1
  {
    var params' := params[id := value];
    assert params'.Keys == params.Keys + {id};
    assert |params'| == |params'.Keys| && |params| == |params.Keys|;
  }

  // `c` was emitted, and its bindings are exactly p|params|, p|params|+1, ... in order.
  ghost predicate FreshBinding(params: Params, c: Compiled, params': Params, n: nat) {
    c.Compiled? && Grown(params, params', n) && NamedFrom(Placeholders(c.sql), |params|, n)
  }

  ghost predicate BindsFreshNames(n: Node, params: Params) {
    FreshBinding(params, Compile(n, params).0, Compile(n, params).1, Bindings(n))
  }

  lemma OneFreshBinding(params: Params, value: string, sql: Sql)
    requires Placeholder(|params|) !in params && Placeholders(sql) == [Placeholder(|params|)]
    ensures FreshBinding(params, Compiled(sql), params[Placeholder(|params|) := value], 1)
  {
    SizeAfterBinding(params, Placeholder(|params|), value);
    assert PickedName(Placeholder(|params|), |params|, 1);
  }

  lemma LeafBindsFreshNames(n: Node, params: Params)
    requires n.Leaf() && Compilable(n) && NamesFree(params, Bindings(n))
    ensures BindsFreshNames(n, params)
  {
    assert n in Leaves(n);
    var (c, params') := Compile(n, params);
    var id := Placeholder(|params|);
    assert c.Compiled?;
    if Bindings(n) == 1 {
      assert id !in params;
      OneFreshBinding(params, params'[id], c.sql);
      assert params' == params[id := params'[id]];
    }
  }

  lemma NamesConcat(a: seq<string>, b: seq<string>, from: nat, k: nat, m: nat)
    requires NamedFrom(a, from, k) && NamedFrom(b, from + k, m)
    ensures NamedFrom(a + b, from, k + m)
  {
  }

  lemma JoinFreshBindings(params: Params, a: Compiled, params1: Params, b: Compiled, params2: Params, k: nat, m: nat,
                          sql: Sql)
    requires FreshBinding(params, a, params1, k) && FreshBinding(params1, b, params2, m)
    requires Placeholders(sql) == Placeholders(a.sql) + Placeholders(b.sql)
    ensures FreshBinding(params, Compiled(sql), params2, k + m)
  {
    GrownTransitive(params, params1, params2, k, m);
    NamesConcat(Placeholders(a.sql), Placeholders(b.sql), |params|, k, m);
  }

  lemma PairUnfolds(n: Node, params: Params)
    requires !n.Leaf() && Compile(n.left, params).0.Compiled? && Compile(n.right, Compile(n.left, params).1).0.Compiled?
    ensures var (a, params1) := Compile(n.left, params);
            var (b, params2) := Compile(n.right, params1);
            && Compile(n, params)
                == (Compiled(if n.AndNode? then Both(a.sql, b.sql) else Either(a.sql, b.sql)), params2)
            && Bindings(n) == Bindings(n.left) + Bindings(n.right)
            && Placeholders(Compile(n, params).0.sql) == Placeholders(a.sql) + Placeholders(b.sql)
  {
  }

  lemma PairBindsFreshNames(n: Node, params: Params)
    requires !n.Leaf() && BindsFreshNames(n.left, params) && BindsFreshNames(n.right, Compile(n.left, params).1)
    ensures BindsFreshNames(n, params)
  {
    var (a, params1) := Compile(n.left, params);
    var (b, params2) := Compile(n.right, params1);
    PairUnfolds(n, params);
    JoinFreshBindings(params, a, params1, b, params2, Bindings(n.left), Bindings(n.right), Compile(n, params).0.sql);
  }

  lemma CompilableParts(n: Node)
    requires !n.Leaf()
    ensures Compilable(n) <==> Compilable(n.left) && Compilable(n.right)
  {
    assert Leaves(n) == Leaves(n.left) + Leaves(n.right);
  }

  lemma {:induction false} CompileBindsFreshNames(n: Node, params: Params)
    requires Compilable(n) && NamesFree(params, Bindings(n))
    ensures BindsFreshNames(n, params)
  {
    if n.Leaf() {
      LeafBindsFreshNames(n, params);
    } else {
      var params1 := Compile(n.left, params).1;
      CompilableParts(n);
      CompileBindsFreshNames(n.left, params);
      GrownKeepsNamesFree(params, params1, Bindings(n.left), Bindings(n.right));
      CompileBindsFreshNames(n.right, params1);
      PairBindsFreshNames(n, params);
    }
  }

  // Under `params` or any extension of it the condition means what the tree means.
  ghost predicate MeansTheSame(sql: Sql, params: Params, n: Node) {
    forall all: Params, row: Row :: Extends(all, params) ==> (SqlHolds(sql, all, row) <==> Matches(n, row))
  }

  lemma LeafMeansTheSame(n: Node, params: Params)
    requires n.Leaf() && Compile(n, params).0.Compiled?
    ensures MeansTheSame(Compile(n, params).0.sql, Compile(n, params).1, n)
  {
    var (c, params') := Compile(n, params);
    var id := Placeholder(|params|);
    forall all: Params, row: Row | Extends(all, params') ensures SqlHolds(c.sql, all, row) <==> Matches(n, row) {
      assert id in params' ==> id in all && all[id] == params'[id];
    }
  }

  lemma ExtensionMeansTheSame(sql: Sql, params: Params, params': Params, n: Node)
    requires MeansTheSame(sql, params, n) && Extends(params', params)
    ensures MeansTheSame(sql, params', n)
  {
    forall all: Params | Extends(all, params') ensures Extends(all, params) {
    }
  }

  lemma PairMeansTheSame(n: Node, params: Params)
    requires !n.Leaf() && BindsFreshNames(n.left, params) && BindsFreshNames(n.right, Compile(n.left, params).1)
    requires MeansTheSame(Compile(n.left, params).0.sql, Compile(n.left, params).1, n.left)
    requires var params1 := Compile(n.left, params).1;
             MeansTheSame(Compile(n.right, params1).0.sql, Compile(n.right, params1).1, n.right)
    ensures Compile(n, params).0.Compiled? && MeansTheSame(Compile(n, params).0.sql, Compile(n, params).1, n)
  {
    var (a, params1) := Compile(n.left, params);
    var (b, params2) := Compile(n.right, params1);
    PairUnfolds(n, params);
    ExtensionMeansTheSame(a.sql, params1, params2, n.left);
    JoinMeansTheSame(n, a.sql, b.sql, params2);
  }

  lemma JoinMeansTheSame(n: Node, a: Sql, b: Sql, params: Params)
    requires !n.Leaf() && MeansTheSame(a, params, n.left) && MeansTheSame(b, params, n.right)
    ensures MeansTheSame(if n.AndNode? then Both(a, b) else Either(a, b), params, n)
  {
    forall all: Params, row: Row | Extends(all, params)
      ensures SqlHolds(if n.AndNode? then Both(a, b) else Either(a, b), all, row) <==> Matches(n, row)
    {
      assert SqlHolds(a, all, row) <==> Matches(n.left, row);
      assert SqlHolds(b, all, row) <==> Matches(n.right, row);
    }
  }

  // MEANING: with free names and quotable fields, compilation succeeds, binds the names
  // p|params|, p|params|+1, ... to its leaves in order without touching an earlier binding, and
  // emits a condition that means what the tree means.
  lemma {:induction false} CompilePreservesMeaning(n: Node, params: Params)
    requires Compilable(n) && NamesFree(params, Bindings(n))
    ensures BindsFreshNames(n, params)
    ensures MeansTheSame(Compile(n, params).0.sql, Compile(n, params).1, n)
  {
    CompileBindsFreshNames(n, params);
    if n.Leaf() {
      LeafMeansTheSame(n, params);
    } else {
      var params1 := Compile(n.left, params).1;
      CompilableParts(n);
      CompilePreservesMeaning(n.left, params);
      GrownKeepsNamesFree(params, params1, Bindings(n.left), Bindings(n.right));
      CompilePreservesMeaning(n.right, params1);
      PairMeansTheSame(n, params);
    }
  }

  // A compilation fails exactly when some leaf has a field name it refuses to quote.
  lemma {:induction false} CompileFailsIff(n: Node, params: Params)
    ensures Compile(n, params).0.Compiled? <==> Compilable(n)
  {
    if n.Leaf() {
      assert n in Leaves(n);
    } else {
      CompileFailsIff(n.left, params);
      CompileFailsIff(n.right, Compile(n.left, params).1);
      CompilableParts(n);
    }
  }

  lemma LeafSize(n: Node, params: Params)
    requires n.Leaf()
    ensures var params' := Compile(n, params).1;
            && |params'| <= |params| + Bindings(n) && params.Keys <= params'.Keys
            && (|params'| == |params| + Bindings(n) ==> NamesFree(params, Bindings(n)))
  {
    var params', id := Compile(n, params).1, Placeholder(|params|);
    if Bindings(n) == 1 {
      SizeAfterBinding(params, id, params'[id]);
      assert params' == params[id := params'[id]];
    }
  }

  lemma {:induction false} CompileAddsAtMost(n: Node, params: Params)
    ensures |Compile(n, params).1| <= |params| + Bindings(n) && params.Keys <= Compile(n, params).1.Keys
  {
    if n.Leaf() {
      LeafSize(n, params);
    } else {
      CompileAddsAtMost(n.left, params);
      CompileAddsAtMost(n.right, Compile(n.left, params).1);
    }
  }

  lemma {:induction false} OwnBindingsNeedFreeNames(n: Node, params: Params)
    requires Compilable(n) && |Compile(n, params).1| == |params| + Bindings(n)
    ensures NamesFree(params, Bindings(n))
  {
    if n.Leaf() {
      LeafSize(n, params);
    } else {
      var params1 := Compile(n.left, params).1;
      CompilableParts(n);
      CompileFailsIff(n.left, params);
      CompileFailsIff(n.right, params1);
      PairUnfolds(n, params);
      CompileAddsAtMost(n.left, params);
      CompileAddsAtMost(n.right, params1);
      OwnBindingsNeedFreeNames(n.left, params);
      OwnBindingsNeedFreeNames(n.right, params1);
      FreeNamesJoin(params, params1, Bindings(n.left), Bindings(n.right));
    }
  }

  lemma FreeNamesJoin(params: Params, params1: Params, k: nat, m: nat)
    requires NamesFree(params, k) && NamesFree(params1, m) && params.Keys <= params1.Keys && |params1| == |params| + k
    ensures NamesFree(params, k + m)
  {
    forall j: nat | |params| <= j < |params| + k + m ensures Placeholder(j) !in params {
      assert j < |params| + k || Placeholder(j) !in params1;
    }
  }

  // Every leaf gets a binding of its own exactly when the names it would pick are free.
  lemma OwnBindingsIffNamesFree(n: Node, params: Params)
    requires Compilable(n)
    ensures |Compile(n, params).1| == |params| + Bindings(n) <==> NamesFree(params, Bindings(n))
  {
    if NamesFree(params, Bindings(n)) {
      CompileBindsFreshNames(n, params);
    } else if |Compile(n, params).1| == |params| + Bindings(n) {
      OwnBindingsNeedFreeNames(n, params);
    }
  }

  // ---------------------------------------------------------------- the two engines

  // Wherever a row matching a leaf in SQL matches it in memory, the same goes for the whole query.
  lemma {:induction false} LeafInclusionLifts(n: Node, row: Row, log: Record)
    requires forall l <- Leaves(n) :: Matches(l, row) ==> EvaluateInMemory(l, log)
    ensures Matches(n, row) ==> EvaluateInMemory(n, log)
  {
    if !n.Leaf() {
      assert Leaves(n) == Leaves(n.left) + Leaves(n.right);
      LeafInclusionLifts(n.left, row, log);
      LeafInclusionLifts(n.right, row, log);
    } else {
      assert n in Leaves(n);
    }
  }

  lemma {:induction false} LeafInclusionLiftsBack(n: Node, row: Row, log: Record)
    requires forall l <- Leaves(n) :: EvaluateInMemory(l, log) ==> Matches(l, row)
    ensures EvaluateInMemory(n, log) ==> Matches(n, row)
  {
    if !n.Leaf() {
      assert Leaves(n) == Leaves(n.left) + Leaves(n.right);
      LeafInclusionLiftsBack(n.left, row, log);
      LeafInclusionLiftsBack(n.right, row, log);
    } else {
      assert n in Leaves(n);
    }
  }

  // And so every row the compiled query returns is one the in-memory engine would return, and
  // the other way round for the opposite inclusion.
  lemma CompiledAnswersAreInMemoryAnswers(n: Node, params: Params, all: Params, row: Row, log: Record)
    requires Compilable(n) && NamesFree(params, Bindings(n)) && Extends(all, Compile(n, params).1)
    ensures Compile(n, params).0.Compiled?
    ensures (forall l <- Leaves(n) :: Matches(l, row) ==> EvaluateInMemory(l, log))
              ==> SqlHolds(Compile(n, params).0.sql, all, row) ==> EvaluateInMemory(n, log)
    ensures (forall l <- Leaves(n) :: EvaluateInMemory(l, log) ==> Matches(l, row))
              ==> EvaluateInMemory(n, log) ==> SqlHolds(Compile(n, params).0.sql, all, row)
  {
    CompilePreservesMeaning(n, params);
    if forall l <- Leaves(n) :: Matches(l, row) ==> EvaluateInMemory(l, log) {
      LeafInclusionLifts(n, row, log);
    }
    if forall l <- Leaves(n) :: EvaluateInMemory(l, log) ==> Matches(l, row) {
      LeafInclusionLiftsBack(n, row, log);
    }
  }
}
