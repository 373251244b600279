/**
  The text side of the query language: the tokenizer's regular expression, the classification of
  tokens, and the printer it is inverse to.
*/
module QueryText {
  import opened QueryParser
  import Sequences

  // \s of a Python str pattern.
  predicate IsSpace(c: char) {
    var n := c as int;
    9 <= n <= 13 || 28 <= n <= 32 || n == 0x85 || n == 0xA0 || n == 0x1680 || 0x2000 <= n <= 0x200A
    || n == 0x2028 || n == 0x2029 || n == 0x202F || n == 0x205F || n == 0x3000
  }

  datatype Class = Ident | NotQuote | NotSpace | BareValue

  predicate InClass(c: char, k: Class) {
    match k
    case Ident => IsIdentChar(c)
    case NotQuote => c != '"'
    case NotSpace => !IsSpace(c)
    case BareValue => !IsSpace(c) && c != '"'
  }

  // How many leading characters of `s` are of class `k`: a greedy repetition.
  function RunLength(s: string, k: Class): (n: nat)
    ensures n <= |s|
    ensures forall i :: 0 <= i < n ==> InClass(s[i], k)
    ensures n < |s| ==> !InClass(s[n], k)
  {
    if s == "" || !InClass(s[0], k) then 0 else 1 + RunLength(s[1..], k)
  }

  // The length of "[^"]*" at the start of `s`, or 0 when it does not match.
  function QuotedLength(s: string): (n: nat)
    ensures n <= |s|
  {
    if s == "" || s[0] != '"' then 0
    else
      var n := RunLength(s[1..], NotQuote);
      if 1 + n < |s| then n + 2 else 0
  }

  // The first alternative that matches at the start of `s`, or 0 when none does:
  //   [A-Za-z0-9_]+:"[^"]*"  |  [A-Za-z0-9_]+:[^\s"]+  |  "[^"]*"  |  \S+
  // A field name cannot be matched shorter than it is, since a colon must follow it.
  function TokenLength(s: string): (n: nat)
    ensures n <= |s|
  {
    var i := RunLength(s, Ident);
    var quoted := if 0 < i < |s| && s[i] == ':' then QuotedLength(s[i + 1..]) else 0;
    var bare := if 0 < i < |s| && s[i] == ':' then RunLength(s[i + 1..], BareValue) else 0;
    if quoted > 0 then i + 1 + quoted
    else if bare > 0 then i + 1 + bare
    else if QuotedLength(s) > 0 then QuotedLength(s)
    else RunLength(s, NotSpace)
  }

  // re.findall
  function Tokenize(s: string): seq<string> {
    if s == "" then []
    else
      var n := TokenLength(s);
      if n == 0 then Tokenize(s[1..]) else [s[..n]] + Tokenize(s[n..])
  }

  function Find(s: string, c: char): (i: nat)
    ensures i <= |s|
    ensures forall j :: 0 <= j < i ==> s[j] != c
    ensures i < |s| ==> s[i] == c
  {
    if s == "" || s[0] == c then 0 else 1 + Find(s[1..], c)
  }

  function StartsWithQuote(s: string): bool { s != "" && s[0] == '"' }

  function EndsWithQuote(s: string): bool { s != "" && s[|s| - 1] == '"' }

  // s[1:-1]
  function Inner(s: string): string {
    if |s| < 2 then "" else s[1..|s| - 1]
  }

  function Classify(token: string): Item {
    if token == "AND" then And
    else if token == "OR" then Or
    else if Find(token, ':') < |token| && !StartsWithQuote(token) then
      var k, v := token[..Find(token, ':')], token[Find(token, ':') + 1..];
      if !FieldNameMatches(k) then Term(TextMatch(token))
      else if |v| >= 2 && StartsWithQuote(v) && EndsWithQuote(v) then Term(FieldMatch(k, Inner(v)))
      else Term(FieldMatch(k, v))
    else if StartsWithQuote(token) && EndsWithQuote(token) then Term(TextMatch(Inner(token)))
    else Term(TextMatch(token))
  }

  function ClassifyAll(tokens: seq<string>): (items: seq<Item>)
    ensures |items| == |tokens| && forall i :: 0 <= i < |tokens| ==> items[i] == Classify(tokens[i])
  {
    if tokens == [] then [] else ClassifyAll(tokens[..|tokens| - 1]) + [Classify(tokens[|tokens| - 1])]
  }

  function ParseQuery(s: string): Node {
    Parsed(ClassifyAll(Tokenize(s)))
  }

  // `parse_query`
  method Parse(s: string) returns (n: Node)
    ensures n == ParseQuery(s)
  {
    var tokens := Tokenize(s);
    var items: seq<Item> := [];
    for i := 0 to |tokens|
      invariant items == ClassifyAll(tokens[..i])
    {
      assert tokens[..i + 1][..i] == tokens[..i];
      items := items + [Classify(tokens[i])];
    }
    assert tokens[..|tokens|] == tokens;
    n := BuildTree(items);
  }

  // ---------------------------------------------------------------- the tokenizer drops only whitespace

  function Filter(s: string, keep: char -> bool): string {
    if s == "" then ""
    else if keep(s[0]) then [s[0]] + Filter(s[1..], keep)
    else Filter(s[1..], keep)
  }

  function Despaced(s: string): string {
    Filter(s, c => !IsSpace(c))
  }

  function Concat(tokens: seq<string>): string {
    if tokens == [] then "" else tokens[0] + Concat(tokens[1..])
  }

  lemma {:induction false} FilterConcat(a: string, b: string, keep: char -> bool)
    ensures Filter(a + b, keep) == Filter(a, keep) + Filter(b, keep)
  {
    if a == "" {
      assert a + b == b;
    } else {
      FilterConcat(a[1..], b, keep);
      assert (a + b)[1..] == a[1..] + b;
    }
  }

  // A filter keeps each character it is to keep as often as it occurs, and no other.
  lemma {:induction false} FilterCounts(s: string, keep: char -> bool, c: char)
    ensures multiset(Filter(s, keep))[c] == if keep(c) then multiset(s)[c] else 0
  {
    if s != "" {
      FilterCounts(s[1..], keep, c);
      assert s == [s[0]] + s[1..];
    }
  }

  lemma DespacedConcat(a: string, b: string)
    ensures Despaced(a + b) == Despaced(a) + Despaced(b)
  {
    FilterConcat(a, b, c => !IsSpace(c));
  }

  lemma {:induction false} TokenizerDropsOnlyWhitespace(s: string)
    ensures Despaced(Concat(Tokenize(s))) == Despaced(s)
    ensures forall t <- Tokenize(s) :: t != ""
    decreases |s|
  {
    if s != "" {
      var n := TokenLength(s);
      if n == 0 {
        assert RunLength(s, NotSpace) == 0 && IsSpace(s[0]);
        TokenizerDropsOnlyWhitespace(s[1..]);
      } else {
        TokenizerDropsOnlyWhitespace(s[n..]);
        assert s == s[..n] + s[n..];
        assert Tokenize(s) == [s[..n]] + Tokenize(s[n..]);
        assert Concat(Tokenize(s)) == s[..n] + Concat(Tokenize(s[n..]));
        DespacedConcat(s[..n], s[n..]);
        DespacedConcat(s[..n], Concat(Tokenize(s[n..])));
      }
    }
  }

  // ---------------------------------------------------------------- printing

  function PrintLeaf(n: Node): string
    requires n.Leaf()
  {
    match n
    case FieldMatch(field, value) => field + ":\"" + value + "\""
    case TextMatch(text) => "\"" + text + "\""
  }

  // Left-nested, with identifier fields and quote-free texts.
  predicate Printable(n: Node) {
    match n
    case FieldMatch(field, value) => IsIdentifier(field) && '"' !in value
    case TextMatch(text) => '"' !in text
    case AndNode(l, r) => Printable(l) && r.Leaf() && Printable(r)
    case OrNode(l, r) => Printable(l) && r.Leaf() && Printable(r)
  }

  function Words(n: Node): seq<string>
    requires Printable(n)
  {
    match n
    case AndNode(l, r) => Words(l) + ["AND", PrintLeaf(r)]
    case OrNode(l, r) => Words(l) + ["OR", PrintLeaf(r)]
    case _ => [PrintLeaf(n)]
  }

  function Spaced(words: seq<string>): string {
    if words == [] then ""
    else if |words| == 1 then words[0]
    else words[0] + " " + Spaced(words[1..])
  }

  function Print(n: Node): string
    requires Printable(n)
  {
    Spaced(Words(n))
  }

  lemma {:induction false} RunStopsAt(a: string, b: string, k: Class)
    requires forall i :: 0 <= i < |a| ==> InClass(a[i], k)
    requires b == "" || !InClass(b[0], k)
    ensures RunLength(a + b, k) == |a|
  {
    if a == "" {
      assert a + b == b;
    } else {
      RunStopsAt(a[1..], b, k);
      assert (a + b)[1..] == a[1..] + b;
    }
  }

  lemma QuotedLengthOf(text: string, rest: string)
    requires '"' !in text
    ensures QuotedLength("\"" + text + "\"" + rest) == |text| + 2
  {
    var s := "\"" + text + "\"" + rest;
    assert s[1..] == text + ("\"" + rest);
    RunStopsAt(text, "\"" + rest, NotQuote);
  }

  // A word is one token, whole, wherever it stands before a space or the end.
  ghost predicate Stands(word: string) {
    word != "" && forall rest: string :: (rest == "" || rest[0] == ' ') ==> TokenLength(word + rest) == |word|
  }

  lemma FieldStands(field: string, value: string, rest: string)
    requires IsIdentifier(field) && '"' !in value
    ensures TokenLength(field + ":\"" + value + "\"" + rest) == |field| + 1 + |value| + 2
  {
    var quoted := "\"" + value + "\"" + rest;
    var s := field + ":\"" + value + "\"" + rest;
    assert s == field + (":" + quoted);
    RunStopsAt(field, ":" + quoted, Ident);
    QuotedLengthOf(value, rest);
    assert s[|field|] == ':' && s[|field| + 1..] == quoted;
  }

  lemma TextStands(text: string, rest: string)
    requires '"' !in text
    ensures TokenLength("\"" + text + "\"" + rest) == |text| + 2
  {
    QuotedLengthOf(text, rest);
    assert RunLength("\"" + text + "\"" + rest, Ident) == 0;
  }

  lemma LeafStands(n: Node)
    requires n.Leaf() && Printable(n)
    ensures Stands(PrintLeaf(n))
  {
    forall rest: string | rest == "" || rest[0] == ' ' ensures TokenLength(PrintLeaf(n) + rest) == |PrintLeaf(n)| {
      match n
      case FieldMatch(field, value) => FieldStands(field, value, rest);
      case TextMatch(text) => TextStands(text, rest);
    }
  }

  lemma OperatorStands(op: string)
    requires op == "AND" || op == "OR"
    ensures Stands(op)
  {
    forall rest: string | rest == "" || rest[0] == ' ' ensures TokenLength(op + rest) == |op| {
      RunStopsAt(op, rest, Ident);
      RunStopsAt(op, rest, NotSpace);
    }
  }

  lemma FirstWord(word: string, rest: string)
    requires Stands(word)
    ensures Tokenize(word) == [word]
    ensures Tokenize(word + (" " + rest)) == [word] + Tokenize(rest)
  {
    assert word + "" == word && TokenLength(word + "") == |word|;
    assert word[..|word|] == word && word[|word|..] == "";
    var tail := " " + rest;
    var s := word + tail;
    assert TokenLength(s) == |word| && s[..|word|] == word && s[|word|..] == tail;
    SpaceIsSkipped(rest);
  }

  lemma SpaceIsSkipped(rest: string)
    ensures Tokenize(" " + rest) == Tokenize(rest)
  {
    var tail := " " + rest;
    assert RunLength(tail, Ident) == 0 && RunLength(tail, NotSpace) == 0 && QuotedLength(tail) == 0;
    assert tail[1..] == rest;
  }

  lemma SpacedUnfolds(words: seq<string>)
    requires words != []
    ensures Spaced(words) == if |words| == 1 then words[0] else words[0] + (" " + Spaced(words[1..]))
  {
  }

  lemma FirstOfWords(words: seq<string>)
    requires words != [] && Stands(words[0])
    ensures Tokenize(Spaced(words))
            == if |words| == 1 then [words[0]] else [words[0]] + Tokenize(Spaced(words[1..]))
  {
    SpacedUnfolds(words);
    FirstWord(words[0], Spaced(words[1..]));
  }

  lemma {:induction false} SpacedWordsTokenize(words: seq<string>)
    requires forall i :: 0 <= i < |words| ==> Stands(words[i])
    ensures Tokenize(Spaced(words)) == words
  {
    if words != [] {
      FirstOfWords(words);
      if |words| > 1 {
        var rest := words[1..];
        assert forall i :: 0 <= i < |rest| ==> rest[i] == words[i + 1];
        SpacedWordsTokenize(rest);
        assert words == [words[0]] + rest;
      }
    }
  }

  lemma {:induction false} WordsStand(n: Node)
    requires Printable(n)
    ensures Words(n) != [] && forall w <- Words(n) :: Stands(w)
  {
    match n
    case AndNode(l, r) =>
      WordsStand(l);
      LeafStands(r);
      OperatorStands("AND");
    case OrNode(l, r) =>
      WordsStand(l);
      LeafStands(r);
      OperatorStands("OR");
    case _ => LeafStands(n);
  }

  lemma IdentifierHasNoColon(s: string)
    requires IsIdentifier(s)
    ensures ':' !in s && '"' !in s
  {
  }

  lemma {:induction false} FindAfter(a: string, b: string, c: char)
    requires c !in a
    ensures Find(a + [c] + b, c) == |a|
  {
    var s := a + [c] + b;
    assert s[|a|] == c;
    assert forall j :: 0 <= j < |a| ==> s[j] == a[j];
  }

  lemma FieldClassifies(field: string, v: string)
    requires IsIdentifier(field)
    ensures Classify(field + ":" + v)
            == Term(FieldMatch(field, if |v| >= 2 && StartsWithQuote(v) && EndsWithQuote(v) then Inner(v) else v))
  {
    var token := field + ":" + v;
    IdentifierHasNoColon(field);
    FindAfter(field, v, ':');
    assert token == field + [':'] + v && Find(token, ':') == |field|;
    assert token[..|field|] == field && token[|field| + 1..] == v;
    assert token[0] == field[0] && ':' in token;
    assert ':' !in "AND" && ':' !in "OR";
  }

  lemma TextClassifies(text: string)
    ensures Classify("\"" + text + "\"") == Term(TextMatch(text))
  {
    var token := "\"" + text + "\"";
    assert token[0] == '"' && token[|token| - 1] == '"' && token[1..|token| - 1] == text;
  }

  lemma QuotedFieldClassifies(field: string, value: string)
    requires IsIdentifier(field)
    ensures Classify(field + ":\"" + value + "\"") == Term(FieldMatch(field, value))
  {
    QuotesStrip(value);
    FieldClassifies(field, "\"" + value + "\"");
    assert field + ":\"" + value + "\"" == field + ":" + ("\"" + value + "\"");
  }

  lemma QuotesStrip(value: string)
    ensures var v := "\"" + value + "\"";
            |v| >= 2 && StartsWithQuote(v) && EndsWithQuote(v) && Inner(v) == value
  {
    var v := "\"" + value + "\"";
    assert v[0] == '"' && v[|v| - 1] == '"' && v[1..|v| - 1] == value;
  }

  lemma LeafClassifies(n: Node)
    requires n.Leaf() && Printable(n)
    ensures Classify(PrintLeaf(n)) == Term(n)
  {
    if n.FieldMatch? {
      QuotedFieldClassifies(n.field, n.value);
    } else {
      TextClassifies(n.text);
    }
  }

  lemma LastTwoClassify(words: seq<string>, op: string, leaf: string)
    ensures ClassifyAll(words + [op, leaf]) == ClassifyAll(words) + [Classify(op), Classify(leaf)]
  {
  }

  lemma {:induction false} WordsParse(n: Node)
    requires Printable(n)
    ensures Parsed(ClassifyAll(Words(n))) == n
  {
    if n.Leaf() {
      LeafClassifies(n);
      assert ClassifyAll(Words(n)) == [Term(n)];
      assert [Term(n)][..0] == [];
    } else {
      WordsParse(n.left);
      LeafClassifies(n.right);
      OneMoreLeafParses(Words(n.left), n.AndNode?, PrintLeaf(n.right), n.right);
    }
  }

  lemma OneMoreLeafParses(words: seq<string>, isAnd: bool, leaf: string, n: Node)
    requires Classify(leaf) == Term(n)
    ensures var op := if isAnd then "AND" else "OR"; var left := Parsed(ClassifyAll(words));
            Parsed(ClassifyAll(words + [op, leaf])) == if isAnd then AndNode(left, n) else OrNode(left, n)
  {
    var op := if isAnd then "AND" else "OR";
    LastTwoClassify(words, op, leaf);
    AppendingATermKeepsTheRest(ClassifyAll(words), Classify(op), n);
  }

  // ROUND TRIP: printing a left-nested query and parsing the text gives the same tree back.
  lemma PrintThenParse(n: Node)
    requires Printable(n)
    ensures ParseQuery(Print(n)) == n
  {
    WordsStand(n);
    SpacedWordsTokenize(Words(n));
    WordsParse(n);
  }

  lemma BareFieldIsOneToken(field: string, value: string)
    requires IsIdentifier(field) && forall i :: 0 <= i < |value| ==> InClass(value[i], BareValue)
    ensures TokenLength(field + ":" + value) == |field| + 1 + |value|
  {
    var s := field + ":" + value;
    assert s == field + (":" + value);
    RunStopsAt(field, ":" + value, Ident);
    assert s[|field|] == ':' && s[|field| + 1..] == value;
    if value == "" {
      RunStopsAt(s, "", NotSpace);
      assert s + "" == s && !StartsWithQuote(s);
    } else {
      RunStopsAt(value, "", BareValue);
      assert value + "" == value && QuotedLength(value) == 0;
    }
  }

  lemma OneTokenQuery(s: string)
    requires s != "" && TokenLength(s) == |s|
    ensures Tokenize(s) == [s]
    ensures Classify(s).Term? ==> ParseQuery(s) == Classify(s).node
  {
    assert s[..|s|] == s && s[|s|..] == "";
    assert Tokenize(s) == [s];
    assert ClassifyAll([s]) == [Classify(s)];
    assert [Classify(s)][..0] == [];
  }

  // An unquoted field:value without spaces or quotes is that one match, colons in the value and
  // an empty value included.
  lemma BareFieldParses(field: string, value: string)
    requires IsIdentifier(field) && forall i :: 0 <= i < |value| ==> InClass(value[i], BareValue)
    ensures ParseQuery(field + ":" + value) == FieldMatch(field, value)
  {
    BareFieldIsOneToken(field, value);
    FieldClassifies(field, value);
    assert value != "" ==> InClass(value[0], BareValue);
    OneTokenQuery(field + ":" + value);
  }

  // ---------------------------------------------------------------- what words mean

  ghost predicate NoSpace(word: string) {
    forall c <- word :: !IsSpace(c)
  }

  // A word without spaces, colons or a leading quote that is not an operator.
  ghost predicate BareWord(word: string) {
    word != "" && NoSpace(word) && ':' !in word && word[0] != '"' && word != "AND" && word != "OR"
  }

  // A word with a colon, but not after an identifier.
  ghost predicate OddColon(word: string) {
    && word != "" && NoSpace(word) && word[0] != '"'
    && exists k: nat :: k < |word| && word[k] == ':' && ':' !in word[..k] && !IsIdentifier(word[..k])
  }

  // `word` is a way to write the leaf `n`.
  ghost predicate Writes(word: string, n: Node) {
    || (n == TextMatch(word) && (BareWord(word) || OddColon(word)))
    || (n.FieldMatch? && word == n.field + ":" + n.value && IsIdentifier(n.field)
        && NoSpace(n.value) && '"' !in n.value)
    || (n.Leaf() && Printable(n) && word == PrintLeaf(n))
  }

  lemma NoColonNoField(word: string, rest: string)
    requires word != "" && NoSpace(word) && word[0] != '"' && (rest == "" || rest[0] == ' ')
    requires var i := RunLength(word + rest, Ident); i == 0 || i >= |word + rest| || (word + rest)[i] != ':'
    ensures TokenLength(word + rest) == |word|
  {
    var s := word + rest;
    assert s[0] == word[0];
    RunStopsAt(word, rest, NotSpace);
  }

  lemma IdentRunOf(word: string, rest: string)
    requires rest == "" || rest[0] == ' '
    ensures var i := RunLength(word + rest, Ident);
            i <= |word| && forall j :: 0 <= j < i ==> IsIdentChar(word[j])
  {
    var s, i := word + rest, RunLength(word + rest, Ident);
    assert rest != "" ==> s[|word|] == ' ' && !InClass(s[|word|], Ident);
    assert forall j :: 0 <= j < i ==> InClass(s[j], Ident) && s[j] == word[j];
  }

  lemma BareWordStands(word: string, rest: string)
    requires BareWord(word) && (rest == "" || rest[0] == ' ')
    ensures TokenLength(word + rest) == |word|
  {
    IdentRunOf(word, rest);
    var i := RunLength(word + rest, Ident);
    assert i < |word| ==> (word + rest)[i] == word[i] && word[i] in word;
    NoColonNoField(word, rest);
  }

  lemma IdentBeforeColon(word: string, i: nat, k: nat)
    requires 0 < i < |word| && word[i] == ':' && forall j :: 0 <= j < i ==> IsIdentChar(word[j])
    requires k < |word| && word[k] == ':' && ':' !in word[..k]
    ensures i == k && IsIdentifier(word[..k])
  {
    forall j | 0 <= j < k ensures word[j] != ':' {
      assert word[..k][j] == word[j];
    }
    assert forall j :: 0 <= j < i ==> word[j] != ':';
    assert forall j :: 0 <= j < k ==> word[..k][j] == word[j];
  }

  lemma OddColonStands(word: string, rest: string)
    requires OddColon(word) && (rest == "" || rest[0] == ' ')
    ensures TokenLength(word + rest) == |word|
  {
    IdentRunOf(word, rest);
    var i := RunLength(word + rest, Ident);
    var k: nat :| k < |word| && word[k] == ':' && ':' !in word[..k] && !IsIdentifier(word[..k]);
    if 0 < i < |word| && word[i] == ':' {
      IdentBeforeColon(word, i, k);
      assert false;
    }
    NoColonNoField(word, rest);
  }

  lemma NoSpaceConcat(a: string, b: string)
    requires NoSpace(a) && NoSpace(b)
    ensures NoSpace(a + b)
  {
    forall c | c in a + b ensures !IsSpace(c) {
      assert c in a || c in b;
    }
  }

  lemma EmptyFieldStands(field: string, rest: string)
    requires IsIdentifier(field) && (rest == "" || rest[0] == ' ')
    ensures TokenLength(field + ":" + rest) == |field| + 1
  {
    var word := field + ":";
    var s := word + rest;
    assert s == field + (":" + rest);
    RunStopsAt(field, ":" + rest, Ident);
    assert s[|field|] == ':' && s[|field| + 1..] == rest && s[0] == field[0];
    IdentifierHasNoSpace(field);
    NoSpaceConcat(field, ":");
    forall j | 0 <= j < |word| ensures InClass(word[j], NotSpace) { assert word[j] in word; }
    RunStopsAt(word, rest, NotSpace);
  }

  lemma IdentifierHasNoSpace(s: string)
    requires IsIdentifier(s)
    ensures NoSpace(s)
  {
  }

  lemma FullFieldStands(field: string, value: string, rest: string)
    requires IsIdentifier(field) && value != "" && NoSpace(value) && '"' !in value && (rest == "" || rest[0] == ' ')
    ensures TokenLength(field + ":" + value + rest) == |field| + 1 + |value|
  {
    var tail := value + rest;
    var s := field + ":" + value + rest;
    assert s == field + (":" + tail);
    RunStopsAt(field, ":" + tail, Ident);
    assert s[|field|] == ':' && s[|field| + 1..] == tail;
    forall j | 0 <= j < |value| ensures InClass(value[j], BareValue) {
      assert value[j] in value;
    }
    RunStopsAt(value, rest, BareValue);
    assert tail[0] == value[0] && QuotedLength(tail) == 0;
  }

  lemma BareFieldStands(field: string, value: string, rest: string)
    requires IsIdentifier(field) && NoSpace(value) && '"' !in value && (rest == "" || rest[0] == ' ')
    ensures TokenLength(field + ":" + value + rest) == |field| + 1 + |value|
  {
    if value == "" {
      assert field + ":" + value == field + ":";
      EmptyFieldStands(field, rest);
    } else {
      FullFieldStands(field, value, rest);
    }
  }

  lemma WordStands(word: string, n: Node)
    requires Writes(word, n)
    ensures Stands(word)
  {
    if n.Leaf() && Printable(n) && word == PrintLeaf(n) {
      LeafStands(n);
    } else {
      forall rest: string | rest == "" || rest[0] == ' ' ensures TokenLength(word + rest) == |word| {
        if n.FieldMatch? {
          BareFieldStands(n.field, n.value, rest);
        } else if BareWord(word) {
          BareWordStands(word, rest);
        } else {
          OddColonStands(word, rest);
        }
      }
    }
  }

  lemma NotAnOperator(word: string)
    requires ':' in word
    ensures word != "AND" && word != "OR"
  {
    assert ':' !in "AND" && ':' !in "OR";
  }

  lemma WordClassifies(word: string, n: Node)
    requires Writes(word, n)
    ensures Classify(word) == Term(n)
  {
    if n.Leaf() && Printable(n) && word == PrintLeaf(n) {
      LeafClassifies(n);
    } else if n.FieldMatch? {
      FieldClassifies(n.field, n.value);
      assert n.value != "" ==> n.value[0] in n.value;
    } else if BareWord(word) {
      assert Find(word, ':') == |word|;
    } else {
      OddColonClassifies(word);
    }
  }

  lemma OddColonClassifies(word: string)
    requires OddColon(word)
    ensures Classify(word) == Term(TextMatch(word))
  {
    var k: nat :| k < |word| && word[k] == ':' && ':' !in word[..k] && !IsIdentifier(word[..k]);
    FirstColonAt(word, k);
    NotAnOperator(word);
    assert NoSpace(word[..k]) by {
      forall c | c in word[..k] ensures !IsSpace(c) { assert c in word; }
    }
    NamesAreIdentifiers(word[..k]);
  }

  lemma FirstColonAt(word: string, k: nat)
    requires k < |word| && word[k] == ':' && ':' !in word[..k]
    ensures Find(word, ':') == k && ':' in word
  {
    forall j | 0 <= j < k ensures word[j] != ':' {
      assert word[..k][j] == word[j];
    }
  }

  // The name test lets a trailing newline through, which no token has.
  lemma NamesAreIdentifiers(s: string)
    requires NoSpace(s)
    ensures FieldNameMatches(s) <==> IsIdentifier(s)
  {
    if s != "" {
      assert s[|s| - 1] in s;
    }
  }

  datatype Joint = NextTo | ByAnd | ByOr

  // One more word of a query, and how it is joined to those before it.
  datatype Piece = Piece(joint: Joint, word: string, leaf: Node)

  function Line(first: Piece, rest: seq<Piece>): seq<string> {
    if rest == [] then [first.word]
    else
      var p := rest[|rest| - 1];
      var before := Line(first, rest[..|rest| - 1]);
      match p.joint
      case NextTo => before + [p.word]
      case ByAnd => before + ["AND", p.word]
      case ByOr => before + ["OR", p.word]
  }

  function Meaning(first: Piece, rest: seq<Piece>): Node {
    if rest == [] then first.leaf
    else
      var p := rest[|rest| - 1];
      var before := Meaning(first, rest[..|rest| - 1]);
      if p.joint == ByOr then OrNode(before, p.leaf) else AndNode(before, p.leaf)
  }

  ghost predicate WellWritten(first: Piece, rest: seq<Piece>) {
    Writes(first.word, first.leaf) && forall i :: 0 <= i < |rest| ==> Writes(rest[i].word, rest[i].leaf)
  }

  lemma {:induction false} LineStands(first: Piece, rest: seq<Piece>)
    requires WellWritten(first, rest)
    ensures Line(first, rest) != [] && forall w <- Line(first, rest) :: Stands(w)
  {
    if rest == [] {
      WordStands(first.word, first.leaf);
    } else {
      var p := rest[|rest| - 1];
      LineStands(first, rest[..|rest| - 1]);
      WordStands(p.word, p.leaf);
      OperatorStands("AND");
      OperatorStands("OR");
    }
  }

  lemma OneMoreWordParses(words: seq<string>, word: string, n: Node)
    requires words != [] && Classify(word) == Term(n) && Classify(words[|words| - 1]).Term?
    ensures Parsed(ClassifyAll(words + [word])) == AndNode(Parsed(ClassifyAll(words)), n)
  {
    var items := ClassifyAll(words);
    Sequences.InitOfSnoc(words, word);
    assert ClassifyAll(words + [word]) == items + [Term(n)];
    TermAppended(items, n);
    assert items[|items| - 1] == Classify(words[|words| - 1]);
  }

  lemma {:induction false} LineParses(first: Piece, rest: seq<Piece>)
    requires WellWritten(first, rest)
    ensures Parsed(ClassifyAll(Line(first, rest))) == Meaning(first, rest)
    ensures var words := Line(first, rest); words != [] && Classify(words[|words| - 1]).Term?
  {
    if rest == [] {
      WordClassifies(first.word, first.leaf);
      OneTermParses(first.word, first.leaf);
    } else {
      var p, before := rest[|rest| - 1], Line(first, rest[..|rest| - 1]);
      LineParses(first, rest[..|rest| - 1]);
      WordClassifies(p.word, p.leaf);
      match p.joint
      case NextTo => OneMoreWordParses(before, p.word, p.leaf);
      case ByAnd => OneMoreLeafParses(before, true, p.word, p.leaf);
      case ByOr => OneMoreLeafParses(before, false, p.word, p.leaf);
    }
  }

  lemma OneTermParses(word: string, n: Node)
    requires Classify(word) == Term(n)
    ensures Parsed(ClassifyAll([word])) == n
  {
    TermAppended([], n);
    assert [] + [Term(n)] == [Term(n)];
    assert ClassifyAll([word]) == [Term(n)];
  }

  // WHAT A QUERY MEANS: words, fields and phrases a space apart, with or without operators between
  // them, parse to the left-nested combination of what each of them means: OR where it is written,
  // else AND.
  lemma QueriesMeanTheirWords(first: Piece, rest: seq<Piece>)
    requires WellWritten(first, rest)
    ensures ParseQuery(Spaced(Line(first, rest))) == Meaning(first, rest)
  {
    var words := Line(first, rest);
    LineStands(first, rest);
    forall i | 0 <= i < |words| ensures Stands(words[i]) {
      assert words[i] in words;
    }
    SpacedWordsTokenize(words);
    LineParses(first, rest);
  }

  // Without OR every word has to hold, in memory and on a stored row.
  lemma {:induction false} EveryWordHolds(first: Piece, rest: seq<Piece>, log: Record, row: Row)
    requires forall p <- rest :: p.joint != ByOr
    ensures EvaluateInMemory(Meaning(first, rest), log)
            <==> EvaluateInMemory(first.leaf, log) && forall p <- rest :: EvaluateInMemory(p.leaf, log)
    ensures Matches(Meaning(first, rest), row)
            <==> Matches(first.leaf, row) && forall p <- rest :: Matches(p.leaf, row)
  {
    if rest != [] {
      var init, p := rest[..|rest| - 1], rest[|rest| - 1];
      EveryWordHolds(first, init, log, row);
      assert forall q :: q in rest <==> q in init || q == p;
    }
  }

  // With nothing but OR one is enough.
  lemma {:induction false} AnyWordHolds(first: Piece, rest: seq<Piece>, log: Record, row: Row)
    requires forall p <- rest :: p.joint == ByOr
    ensures EvaluateInMemory(Meaning(first, rest), log)
            <==> EvaluateInMemory(first.leaf, log) || exists p <- rest :: EvaluateInMemory(p.leaf, log)
    ensures Matches(Meaning(first, rest), row)
            <==> Matches(first.leaf, row) || exists p <- rest :: Matches(p.leaf, row)
  {
    if rest != [] {
      var init, p := rest[..|rest| - 1], rest[|rest| - 1];
      AnyWordHolds(first, init, log, row);
      assert forall q :: q in rest <==> q in init || q == p;
    }
  }

  // A word on its own: what has no spaces, no leading quote and no identifier before a colon, and
  // is no operator, is looked for as it stands.
  lemma WordParses(word: string)
    requires BareWord(word) || OddColon(word)
    ensures ParseQuery(word) == TextMatch(word)
  {
    QueriesMeanTheirWords(Piece(NextTo, word, TextMatch(word)), []);
  }

  // ---------------------------------------------------------------- without a space between

  lemma TwoTokensParse(first: string, second: string, m: Node, n: Node)
    requires first != "" && second != "" && TokenLength(first + second) == |first|
    requires TokenLength(second) == |second| && Classify(first) == Term(m) && Classify(second) == Term(n)
    ensures ParseQuery(first + second) == AndNode(m, n)
  {
    var s := first + second;
    OneTokenQuery(second);
    assert s[..|first|] == first && s[|first|..] == second;
    assert Tokenize(s) == [first] + [second];
    OneTermParses(first, m);
    OneMoreWordParses([first], second, n);
  }

  lemma PhraseIsOneToken(text: string)
    requires '"' !in text
    ensures TokenLength(PrintLeaf(TextMatch(text))) == |PrintLeaf(TextMatch(text))|
  {
    TextStands(text, "");
    assert "\"" + text + "\"" + "" == "\"" + text + "\"";
  }

  lemma BareFieldStopsAtAQuote(field: string, value: string, rest: string)
    requires IsIdentifier(field) && value != "" && NoSpace(value) && '"' !in value && rest != "" && rest[0] == '"'
    ensures TokenLength(field + ":" + value + rest) == |field| + 1 + |value|
  {
    var s := field + ":" + value + rest;
    assert s == field + (":" + (value + rest));
    RunStopsAt(field, ":" + (value + rest), Ident);
    assert s[|field|] == ':' && s[|field| + 1..] == value + rest;
    assert forall i :: 0 <= i < |value| ==> value[i] in value;
    RunStopsAt(value, rest, BareValue);
  }

  // A quoted phrase ends an unquoted value, space or not.
  lemma FieldThenPhrase(field: string, value: string, text: string)
    requires IsIdentifier(field) && value != "" && NoSpace(value) && '"' !in value && '"' !in text
    ensures ParseQuery(field + ":" + value + PrintLeaf(TextMatch(text)))
            == AndNode(FieldMatch(field, value), TextMatch(text))
  {
    BareFieldStopsAtAQuote(field, value, PrintLeaf(TextMatch(text)));
    PhraseIsOneToken(text);
    FieldClassifies(field, value);
    assert value[0] in value;
    TextClassifies(text);
    TwoTokensParse(field + ":" + value, PrintLeaf(TextMatch(text)), FieldMatch(field, value), TextMatch(text));
  }

  // So does the quote at the end of a phrase: what follows is a word of its own.
  lemma PhraseThenWord(text: string, word: string)
    requires '"' !in text && BareWord(word)
    ensures ParseQuery(PrintLeaf(TextMatch(text)) + word) == AndNode(TextMatch(text), TextMatch(word))
  {
    TextStands(text, word);
    BareWordStands(word, "");
    assert word + "" == word;
    TextClassifies(text);
    WordClassifies(word, TextMatch(word));
    TwoTokensParse(PrintLeaf(TextMatch(text)), word, TextMatch(text), TextMatch(word));
  }

  // Whatever the user types, the parsed query compiles: a token is a field match only when its
  // name can be quoted, and the caller's dictionary starts empty.
  lemma ParsedQueriesCompile(s: string)
    ensures Compilable(ParseQuery(s)) && Compile(ParseQuery(s), map[]).0.Compiled?
  {
    var items := ClassifyAll(Tokenize(s));
    assert forall i <- items :: i.Term? ==> i.node.Leaf() && (i.node.FieldMatch? ==> FieldNameMatches(i.node.field));
    LeavesAreTheTerms(items);
    TermsAreItems(items);
    CompileFailsIff(ParseQuery(s), map[]);
  }

  lemma {:induction false} TermsAreItems(items: seq<Item>)
    ensures forall t <- Terms(items) :: Term(t) in items
  {
    if items != [] {
      TermsAreItems(items[..|items| - 1]);
    }
  }
}
