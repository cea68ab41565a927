/**
  The cache key of a statement, statementKey in internal/browserfacade/parser.go: the statements that list
  takes keys of never share one; of statements in general, exactly which would.
 */
module StatementKey {
  import opened Common
  import opened TextOps
  import opened StringOrder
  import opened QueryParse
  import opened QueryMeaning
  import QueryText
  import FacadeArguments

  // ---- Sorted argument lists ----

  ghost predicate Ascending(keys: seq<string>) {
    forall i, j | 0 <= i < j < |keys| :: Less(keys[i], keys[j])
  }

  ghost predicate AscendingKeys(list: seq<Argument>) {
    forall i, j | 0 <= i < j < |list| :: Less(list[i].key, list[j].key)
  }

  /** The list holds the map's entries in ascending order of their keys. */
  ghost predicate Lists(list: seq<Argument>, args: map<string, string>) {
    && AscendingKeys(list)
    && (forall i | 0 <= i < |list| :: list[i].key in args && args[list[i].key] == list[i].value)
    && (forall k | k in args :: exists i :: 0 <= i < |list| && list[i].key == k)
  }

  /** A map has one sorted listing, so no enumeration order can show in it. */
  lemma {:induction false} ListsOnce(p: seq<Argument>, q: seq<Argument>, args: map<string, string>)
    requires Lists(p, args) && Lists(q, args)
    ensures p == q
    decreases |p|
  {
    if p == [] || q == [] {
      EmptyListing(p, args);
      EmptyListing(q, args);
    } else {
      LeastFirst(p, q, args);
      var k := p[0].key;
      ListsRest(p, args);
      ListsRest(q, args);
      ListsOnce(p[1..], q[1..], args - {k});
    }
  }

  lemma EmptyListing(p: seq<Argument>, args: map<string, string>)
    requires Lists(p, args)
    ensures p == [] <==> args == map[]
  {
    if p != [] {
      assert p[0].key in args;
    }
  }

  lemma LeastFirst(p: seq<Argument>, q: seq<Argument>, args: map<string, string>)
    requires Lists(p, args) && Lists(q, args) && p != [] && q != []
    ensures p[0] == q[0]
  {
    var i :| 0 <= i < |q| && q[i].key == p[0].key;
    var j :| 0 <= j < |p| && p[j].key == q[0].key;
    if i > 0 && j > 0 {
      LessAsymmetric(p[0].key, q[0].key);
    }
  }

  lemma ListsRest(p: seq<Argument>, args: map<string, string>)
    requires Lists(p, args) && p != []
    ensures Lists(p[1..], args - {p[0].key})
  {
    var rest, fewer := p[1..], args - {p[0].key};
    forall i | 0 <= i < |rest| ensures rest[i].key in fewer && fewer[rest[i].key] == rest[i].value {
      LessIrreflexive(p[0].key);
      assert rest[i] == p[i + 1] && Less(p[0].key, p[i + 1].key);
    }
    forall k | k in fewer ensures exists i :: 0 <= i < |rest| && rest[i].key == k {
      var i :| 0 <= i < |p| && p[i].key == k;
      assert rest[i - 1].key == k;
    }
  }

  lemma LessIrreflexive(k: string)
    ensures !Less(k, k)
  {
    if Less(k, k) {
      LessAsymmetric(k, k);
    }
  }

  // ---- The text of a key ----

  function PairText(a: Argument): string {
    a.key + "=" + a.value + ";"
  }

  function ArgsText(list: seq<Argument>): string {
    if list == [] then "" else PairText(list[0]) + ArgsText(list[1..])
  }

  function CommaJoin(fields: seq<string>): string {
    if fields == [] then ""
    else if |fields| == 1 then fields[0]
    else fields[0] + "," + CommaJoin(fields[1..])
  }

  function KeyText(operation: string, list: seq<Argument>, fields: seq<string>): string {
    operation + ":" + (ArgsText(list) + ":" + CommaJoin(fields))
  }

  /** key is the statement's cache key. */
  ghost predicate IsKey(key: string, st: Statement) {
    exists list :: Lists(list, st.args) && key == KeyText(st.operation, list, st.fields)
  }

  /** Every statement has exactly one key. */
  lemma KeyIsDetermined(st: Statement, a: string, b: string)
    requires IsKey(a, st) && IsKey(b, st)
    ensures a == b
  {
    var p :| Lists(p, st.args) && a == KeyText(st.operation, p, st.fields);
    var q :| Lists(q, st.args) && b == KeyText(st.operation, q, st.fields);
    ListsOnce(p, q, st.args);
  }

  // ---- statementKey ----

  function InsertKey(k: string, keys: seq<string>): seq<string> {
    if keys == [] || Less(k, keys[0]) then [k] + keys else [keys[0]] + InsertKey(k, keys[1..])
  }

  /** sort.Strings. */
  function SortStrings(keys: seq<string>): seq<string> {
    if keys == [] then [] else InsertKey(keys[0], SortStrings(keys[1..]))
  }

  lemma {:induction false} InsertKeyKeeps(k: string, keys: seq<string>)
    requires Ascending(keys) && k !in keys
    ensures var more := InsertKey(k, keys);
      Ascending(more) && multiset(more) == multiset(keys) + multiset{k}
  {
    var more := InsertKey(k, keys);
    if keys == [] || Less(k, keys[0]) {
      forall i, j | 0 <= i < j < |more| ensures Less(more[i], more[j]) {
        if i == 0 && j > 1 {
          LessTransitive(k, keys[0], keys[j - 1]);
        }
      }
    } else {
      var rest := InsertKey(k, keys[1..]);
      InsertKeyKeeps(k, keys[1..]);
      LessTotal(k, keys[0]);
      assert keys == [keys[0]] + keys[1..];
      forall j | 0 <= j < |rest| ensures Less(keys[0], rest[j]) {
        assert rest[j] in multiset(rest);
        assert rest[j] == k || rest[j] in multiset(keys[1..]);
      }
    }
  }

  lemma {:induction false} SortStringsSorts(keys: seq<string>)
    requires Distinct(keys)
    ensures Ascending(SortStrings(keys)) && multiset(SortStrings(keys)) == multiset(keys)
  {
    if keys != [] {
      var rest := keys[1..];
      forall i, j | 0 <= i < j < |rest| ensures rest[i] != rest[j] {
        assert keys[i + 1] != keys[j + 1];
      }
      SortStringsSorts(rest);
      assert keys == [keys[0]] + rest;
      var sorted := SortStrings(rest);
      SameElements(sorted, rest);
      InsertKeyKeeps(keys[0], sorted);
    }
  }

  function Entries(keys: seq<string>, args: map<string, string>): seq<Argument>
    requires forall k | k in keys :: k in args
  {
    seq(|keys|, i requires 0 <= i < |keys| => Argument(keys[i], args[keys[i]]))
  }

  lemma {:induction false} ArgsTextAppend(list: seq<Argument>, a: Argument)
    ensures ArgsText(list + [a]) == ArgsText(list) + PairText(a)
  {
    if list == [] {
      assert list + [a] == [a];
    } else {
      assert (list + [a])[1..] == list[1..] + [a];
      ArgsTextAppend(list[1..], a);
    }
  }

  /** The keys leave the map in any order whatever; the key does not show it. */
  method StatementKey(st: Statement) returns (key: string)
    ensures IsKey(key, st)
  {
    var keys: seq<string> := [];
    var rest := st.args.Keys;
    while rest != {}
      invariant rest <= st.args.Keys && Distinct(keys)
      invariant forall k :: k in keys <==> k in st.args && k !in rest
      decreases |rest|
    {
      var k :| k in rest;
      keys := keys + [k];
      rest := rest - {k};
    }
    keys := SortedKeys(keys, st.args);
    var args := BuildArgs(keys, st.args);
    key := st.operation + ":" + (args + ":" + CommaJoin(st.fields));
    assert key == KeyText(st.operation, Entries(keys, st.args), st.fields);
  }

  method SortedKeys(keys: seq<string>, args: map<string, string>) returns (sorted: seq<string>)
    requires Distinct(keys) && forall k :: k in keys <==> k in args
    ensures (forall k :: k in sorted <==> k in args) && Lists(Entries(sorted, args), args)
  {
    sorted := SortStrings(keys);
    SortStringsSorts(keys);
    SameElements(sorted, keys);
    EntriesList(sorted, args);
  }

  method BuildArgs(keys: seq<string>, args: map<string, string>) returns (text: string)
    requires forall k | k in keys :: k in args
    ensures text == ArgsText(Entries(keys, args))
  {
    text := "";
    ghost var list := Entries(keys, args);
    for i := 0 to |keys|
      invariant text == ArgsText(list[..i])
    {
      ArgsTextAppend(list[..i], list[i]);
      assert list[..i + 1] == list[..i] + [list[i]];
      text := text + PairText(Argument(keys[i], args[keys[i]]));
    }
    assert list[..|keys|] == list;
  }

  lemma EntriesList(keys: seq<string>, args: map<string, string>)
    requires Ascending(keys) && forall k :: k in keys <==> k in args
    ensures Lists(Entries(keys, args), args)
  {
    var list := Entries(keys, args);
    forall k | k in args ensures exists i :: 0 <= i < |list| && list[i].key == k {
      var i :| 0 <= i < |keys| && keys[i] == k;
      assert list[i].key == k;
    }
  }

  // ---- Reading a key back ----

  lemma LastOccurrence(a: string, x: string, c: char)
    requires c !in x
    ensures var s := a + [c] + x; s[|a|] == c && forall i | |a| < i < |s| :: s[i] != c
  {
    var s := a + [c] + x;
    forall i | |a| < i < |s| ensures s[i] != c {
      assert s[i] == x[i - |a| - 1];
    }
  }

  /** A text is cut in only one way at its last delimiter. */
  lemma LastDelimiter(a: string, x: string, b: string, y: string, c: char)
    requires c !in x && c !in y && a + [c] + x == b + [c] + y
    ensures a == b && x == y
  {
    var s, t := a + [c] + x, b + [c] + y;
    LastOccurrence(a, x, c);
    LastOccurrence(b, y, c);
    assert a == s[..|a|] && b == t[..|b|] && x == s[|a| + 1..] && y == t[|b| + 1..];
  }

  lemma NonemptyJoin(fields: seq<string>)
    requires FieldNames(fields)
    ensures CommaJoin(fields) == "" <==> fields == []
  {
    if fields != [] {
      assert fields[0] in fields;
    }
  }

  lemma CommaMeansMany(fields: seq<string>)
    requires FieldNames(fields) && fields != []
    ensures ',' in CommaJoin(fields) <==> |fields| > 1
  {
    assert fields[0] in fields;
    NoComma(fields[0]);
  }

  lemma {:induction false} CommaJoinOnce(f: seq<string>, g: seq<string>)
    requires FieldNames(f) && FieldNames(g) && CommaJoin(f) == CommaJoin(g)
    ensures f == g
    decreases |f|
  {
    if f == [] || g == [] {
      NonemptyJoin(f);
      NonemptyJoin(g);
    } else {
      assert f[0] in f && g[0] in g;
      NoComma(f[0]);
      NoComma(g[0]);
      CommaMeansMany(f);
      CommaMeansMany(g);
      if |f| > 1 {
        FirstDelimiter(f[0], CommaJoin(f[1..]), g[0], CommaJoin(g[1..]), ',');
        CommaJoinOnce(f[1..], g[1..]);
        assert f == [f[0]] + f[1..] && g == [g[0]] + g[1..];
      } else {
        assert f == [f[0]] && g == [g[0]];
      }
    }
  }

  lemma NoComma(name: string)
    requires FieldName(name)
    ensures ',' !in name && ':' !in name && '=' !in name
  {
  }

  lemma {:induction false} NoColon(fields: seq<string>)
    requires FieldNames(fields)
    ensures ':' !in CommaJoin(fields)
  {
    if fields != [] {
      assert fields[0] in fields;
      NoComma(fields[0]);
      NoColon(fields[1..]);
    }
  }

  lemma OperationHasNoColon(name: string)
    requires SafeName(name)
    ensures ':' !in name
  {
  }

  /** Equal keys agree on the operation, on the text of the arguments and on the fields. */
  lemma KeySections(a: Statement, p: seq<Argument>, b: Statement, q: seq<Argument>)
    requires Proper(a) && Proper(b)
    requires KeyText(a.operation, p, a.fields) == KeyText(b.operation, q, b.fields)
    ensures a.operation == b.operation && ArgsText(p) == ArgsText(q) && a.fields == b.fields
  {
    OperationHasNoColon(a.operation);
    OperationHasNoColon(b.operation);
    var x, y := ArgsText(p) + ":" + CommaJoin(a.fields), ArgsText(q) + ":" + CommaJoin(b.fields);
    FirstDelimiter(a.operation, x, b.operation, y, ':');
    NoColon(a.fields);
    NoColon(b.fields);
    LastDelimiter(ArgsText(p), CommaJoin(a.fields), ArgsText(q), CommaJoin(b.fields), ':');
    CommaJoinOnce(a.fields, b.fields);
  }

  ghost predicate FieldKeys(list: seq<Argument>) {
    forall i | 0 <= i < |list| :: FieldName(list[i].key)
  }

  lemma ListedKeys(list: seq<Argument>, st: Statement)
    requires Proper(st) && Lists(list, st.args)
    ensures FieldKeys(list)
  {
  }

  lemma PairCut(a: Argument, rest: string)
    ensures PairText(a) + rest == a.key + ['='] + (a.value + ";" + rest)
  {
  }

  /** Equal, nonempty argument texts agree on the first key and on what follows it. */
  lemma FirstKey(p: seq<Argument>, q: seq<Argument>)
    requires FieldKeys(p) && FieldKeys(q) && p != [] && q != [] && ArgsText(p) == ArgsText(q)
    ensures p[0].key == q[0].key
    ensures p[0].value + ";" + ArgsText(p[1..]) == q[0].value + ";" + ArgsText(q[1..])
  {
    NoComma(p[0].key);
    NoComma(q[0].key);
    var x, y := p[0].value + ";" + ArgsText(p[1..]), q[0].value + ";" + ArgsText(q[1..]);
    PairCut(p[0], ArgsText(p[1..]));
    PairCut(q[0], ArgsText(q[1..]));
    FirstDelimiter(p[0].key, x, q[0].key, y, '=');
  }

  ghost predicate PlainValues(list: seq<Argument>) {
    forall i | 0 <= i < |list| :: ';' !in list[i].value
  }

  lemma {:induction false} PlainTextOnce(p: seq<Argument>, q: seq<Argument>)
    requires FieldKeys(p) && FieldKeys(q) && PlainValues(p) && PlainValues(q) && ArgsText(p) == ArgsText(q)
    ensures p == q
    decreases |p|
  {
    if p != [] && q != [] {
      FirstKey(p, q);
      FirstDelimiter(p[0].value, ArgsText(p[1..]), q[0].value, ArgsText(q[1..]), ';');
      PlainTextOnce(p[1..], q[1..]);
      assert p == [p[0]] + p[1..] && q == [q[0]] + q[1..];
    }
  }

  ghost predicate Plain(st: Statement) {
    forall k | k in st.args :: ';' !in st.args[k]
  }

  lemma SameListing(a: Statement, b: Statement, list: seq<Argument>)
    requires Lists(list, a.args) && Lists(list, b.args)
    ensures a.args == b.args
  {
    forall k | k in a.args ensures k in b.args && b.args[k] == a.args[k] {
      var i :| 0 <= i < |list| && list[i].key == k;
    }
    forall k | k in b.args ensures k in a.args {
      var i :| 0 <= i < |list| && list[i].key == k;
    }
  }

  /** Without semicolons in argument values, different statements have different keys. */
  lemma PlainKeysDiffer(a: Statement, b: Statement, key: string)
    requires Proper(a) && Proper(b) && Plain(a) && Plain(b)
    requires IsKey(key, a) && IsKey(key, b)
    ensures a == b
  {
    var p :| Lists(p, a.args) && key == KeyText(a.operation, p, a.fields);
    var q :| Lists(q, b.args) && key == KeyText(b.operation, q, b.fields);
    KeySections(a, p, b, q);
    ListedKeys(p, a);
    ListedKeys(q, b);
    PlainTextOnce(p, q);
    SameListing(a, b, p);
  }

  // ---- The statements whose keys are taken ----

  /** Only the argument with this key, which stands last if at all, may hold semicolons. */
  ghost predicate OpenAtEnd(list: seq<Argument>, open: string) {
    forall i | 0 <= i < |list| ::
      (list[i].key == open ==> i == |list| - 1) && (';' in list[i].value ==> list[i].key == open)
  }

  lemma OpenAtEndRest(list: seq<Argument>, open: string)
    requires OpenAtEnd(list, open) && list != []
    ensures OpenAtEnd(list[1..], open)
  {
    forall i | 0 <= i < |list[1..]| ensures list[1..][i] == list[i + 1] { }
  }

  lemma LastValueOnce(v: string, w: string)
    requires v + ";" + "" == w + ";" + ""
    ensures v == w
  {
    assert v == (v + ";" + "")[..|v|] && w == (w + ";" + "")[..|w|];
  }

  lemma {:induction false} OpenTextOnce(p: seq<Argument>, q: seq<Argument>, open: string)
    requires FieldKeys(p) && FieldKeys(q) && OpenAtEnd(p, open) && OpenAtEnd(q, open) && ArgsText(p) == ArgsText(q)
    ensures p == q
    decreases |p|
  {
    if p != [] && q != [] {
      FirstKey(p, q);
      if p[0].key == open {
        assert p[1..] == [] && q[1..] == [];
        LastValueOnce(p[0].value, q[0].value);
      } else {
        FirstDelimiter(p[0].value, ArgsText(p[1..]), q[0].value, ArgsText(q[1..]), ';');
        OpenAtEndRest(p, open);
        OpenAtEndRest(q, open);
        OpenTextOnce(p[1..], q[1..], open);
      }
      assert p == [p[0]] + p[1..] && q == [q[0]] + q[1..];
    }
  }

  /** where_value is the greatest of list's argument keys. */
  lemma WhereValueIsLast(k: string)
    requires FacadeArguments.ListKey(k)
    ensures !Less("where_value", k)
  {
    if k == "where_field" {
      assert !Less("where_value", "where_field");
    } else if k == "where_op" {
      assert !Less("where_value", "where_op");
    } else if k == "where_value" {
      LessIrreflexive(k);
    }
  }

  lemma AdmittedListing(st: Statement, adapter: FacadeArguments.Adapter, list: seq<Argument>)
    requires FacadeArguments.Admitted(st, adapter) && Lists(list, st.args)
    ensures OpenAtEnd(list, "where_value")
  {
    forall i | 0 <= i < |list|
      ensures list[i].key == "where_value" ==> i == |list| - 1
      ensures ';' in list[i].value ==> list[i].key == "where_value"
    {
      FacadeArguments.AdmittedIsPlain(st, adapter, list[i].key);
      if i < |list| - 1 {
        FacadeArguments.AdmittedIsPlain(st, adapter, list[i + 1].key);
        WhereValueIsLast(list[i + 1].key);
        assert Less(list[i].key, list[i + 1].key);
      }
    }
  }

  /** list takes the keys of no other statements than those it lets through, whatever stands in their
      where_value: two of them have the same key if and only if they are the same statement. */
  lemma AdmittedKeysDiffer(a: Statement, x: FacadeArguments.Adapter, k: string,
                           b: Statement, y: FacadeArguments.Adapter, l: string)
    requires Proper(a) && FacadeArguments.Admitted(a, x) && IsKey(k, a)
    requires Proper(b) && FacadeArguments.Admitted(b, y) && IsKey(l, b)
    ensures k == l <==> a == b
  {
    if a == b {
      KeyIsDetermined(a, k, l);
    } else if k == l {
      var p :| Lists(p, a.args) && k == KeyText(a.operation, p, a.fields);
      var q :| Lists(q, b.args) && l == KeyText(b.operation, q, b.fields);
      KeySections(a, p, b, q);
      ListedKeys(p, a);
      ListedKeys(q, b);
      AdmittedListing(a, x, p);
      AdmittedListing(b, y, q);
      OpenTextOnce(p, q, "where_value");
      SameListing(a, b, p);
    }
  }

  /** The same for statements of any two queries that Parse accepts. */
  lemma QueriedKeysDiffer(first: string, a: Statement, x: FacadeArguments.Adapter, k: string,
                          second: string, b: Statement, y: FacadeArguments.Adapter, l: string,
                          unquote: string -> Option<string>)
    requires ReadQuery(first, unquote).Ok? && a in ReadQuery(first, unquote).value
    requires ReadQuery(second, unquote).Ok? && b in ReadQuery(second, unquote).value
    requires FacadeArguments.Admitted(a, x) && IsKey(k, a) && FacadeArguments.Admitted(b, y) && IsKey(l, b)
    ensures k == l <==> a == b
  {
    AcceptedQueryIsProper(first, unquote);
    AcceptedQueryIsProper(second, unquote);
    AdmittedKeysDiffer(a, x, k, b, y, l);
  }

  // ---- Statements in general: what list's checks are good for ----

  /** At i and j the value reads like the end of one argument and the beginning of a later one. */
  predicate SplitsAt(key: string, value: string, i: int, j: int) {
    && 0 <= i < j < |value| && value[i] == ';' && value[j] == '='
    && FieldName(value[i + 1..j]) && Less(key, value[i + 1..j])
  }

  predicate Splits(key: string, value: string) {
    exists i, j | 0 <= i < j < |value| :: SplitsAt(key, value, i, j)
  }

  /** No other proper statement has this statement's key. */
  ghost predicate Unshared(st: Statement) {
    forall key, other | IsKey(key, st) && IsKey(key, other) && Proper(other) :: other == st
  }

  /** What decides it: at most one argument, whose value cannot be read as two. */
  ghost predicate Unambiguous(st: Statement) {
    forall k, l | k in st.args && l in st.args :: k == l && !Splits(k, st.args[k])
  }

  /** A lone argument that does not split is the only reading of its text. */
  lemma LoneTextOnce(a: Argument, q: seq<Argument>)
    requires FieldName(a.key) && FieldKeys(q) && AscendingKeys(q) && ArgsText([a]) == ArgsText(q)
    requires !Splits(a.key, a.value)
    ensures q == [a]
  {
    assert ArgsText([a]) == PairText(a) + ArgsText([]);
    FirstKey([a], q);
    var v, rest := q[0].value, q[1..];
    assert a.value + ";" == v + ";" + ArgsText(rest);
    if rest == [] {
      assert ArgsText(rest) == "";
      assert a.value == (a.value + ";")[..|a.value|] && (v + ";" + "")[..|v|] == v;
      assert q == [q[0]];
    } else {
      var i, j := |v|, |v| + 1 + |rest[0].key|;
      var text := v + ";" + ArgsText(rest);
      assert text[i + 1..j] == rest[0].key && text[j] == '=' && text[i] == ';';
      assert |ArgsText(rest)| >= |PairText(rest[0])|;
      assert j < |a.value|;
      assert a.value == text[..|a.value|];
      assert a.value[i + 1..j] == rest[0].key;
      assert q[1] == rest[0];
      assert SplitsAt(a.key, a.value, i, j);
    }
  }

  lemma UnambiguousIsUnshared(st: Statement)
    requires Proper(st) && Unambiguous(st)
    ensures Unshared(st)
  {
    forall key, other | IsKey(key, st) && IsKey(key, other) && Proper(other) ensures other == st {
      UnambiguousReadsOnce(st, other, key);
    }
  }

  lemma UnambiguousReadsOnce(st: Statement, other: Statement, key: string)
    requires Proper(st) && Unambiguous(st) && IsKey(key, st) && IsKey(key, other) && Proper(other)
    ensures other == st
  {
    var p :| Lists(p, st.args) && key == KeyText(st.operation, p, st.fields);
    var q :| Lists(q, other.args) && key == KeyText(other.operation, q, other.fields);
    KeySections(st, p, other, q);
    ListedKeys(p, st);
    ListedKeys(q, other);
    LoneListing(p, st);
    if p != [] {
      assert p == [p[0]];
      LoneTextOnce(p[0], q);
    }
    SameListing(st, other, p);
  }

  lemma LoneListing(p: seq<Argument>, st: Statement)
    requires Unambiguous(st) && Lists(p, st.args)
    ensures |p| <= 1 && (p != [] ==> !Splits(p[0].key, p[0].value))
  {
    if |p| > 1 {
      FirstTwoDiffer(p, st.args);
    }
  }

  lemma FirstTwoDiffer(p: seq<Argument>, args: map<string, string>)
    requires Lists(p, args) && |p| > 1
    ensures p[0].key in args && p[1].key in args && p[0].key != p[1].key
  {
    LessIrreflexive(p[0].key);
  }

  /** Two arguments can be read as one whose value holds both. */
  function Merged(a: Argument, b: Argument): Argument {
    Argument(a.key, a.value + ";" + PairText(b)[..|PairText(b)| - 1])
  }

  lemma Associative(a: string, b: string, c: string)
    ensures (a + b) + c == a + (b + c)
  {
  }

  lemma ArgsTextCons(a: Argument, rest: seq<Argument>)
    ensures ArgsText([a] + rest) == PairText(a) + ArgsText(rest)
  {
    assert ([a] + rest)[1..] == rest;
  }

  lemma MergedPair(a: Argument, b: Argument)
    ensures PairText(Merged(a, b)) == PairText(a) + PairText(b)
  {
    var one := PairText(b);
    assert one[..|one| - 1] + ";" == one;
  }

  lemma MergedText(list: seq<Argument>)
    requires |list| >= 2
    ensures ArgsText([Merged(list[0], list[1])] + list[2..]) == ArgsText(list)
  {
    var a, b, rest := list[0], list[1], list[2..];
    assert list == [a] + ([b] + rest);
    ArgsTextCons(a, [b] + rest);
    ArgsTextCons(b, rest);
    ArgsTextCons(Merged(a, b), rest);
    MergedPair(a, b);
    Associative(PairText(a), PairText(b), ArgsText(rest));
  }

  lemma MergeListing(list: seq<Argument>, args: map<string, string>)
    requires |list| >= 2 && Lists(list, args)
    ensures var m := Merged(list[0], list[1]);
      Lists([m] + list[2..], (args - {list[1].key})[m.key := m.value])
  {
    var m := Merged(list[0], list[1]);
    var shorter, fewer := [m] + list[2..], (args - {list[1].key})[m.key := m.value];
    assert forall i | 0 < i < |shorter| :: shorter[i] == list[i + 1];
    MergedAscends(list, shorter);
    forall i | 0 <= i < |shorter| ensures shorter[i].key in fewer && fewer[shorter[i].key] == shorter[i].value {
      if i > 0 {
        LaterKeysDiffer(list, i + 1);
      }
    }
    forall k | k in fewer ensures exists i :: 0 <= i < |shorter| && shorter[i].key == k {
      MergedHas(list, args, shorter, k);
    }
  }

  lemma MergedHas(list: seq<Argument>, args: map<string, string>, shorter: seq<Argument>, k: string)
    requires |list| >= 2 && Lists(list, args) && |shorter| == |list| - 1 && shorter[0].key == list[0].key
    requires forall i | 0 < i < |shorter| :: shorter[i] == list[i + 1]
    requires k == list[0].key || (k in args && k != list[1].key)
    ensures exists i :: 0 <= i < |shorter| && shorter[i].key == k
  {
    if k == list[0].key {
      assert shorter[0].key == k;
    } else {
      var i :| 0 <= i < |list| && list[i].key == k;
      assert shorter[i - 1].key == k;
    }
  }

  lemma MergedAscends(list: seq<Argument>, shorter: seq<Argument>)
    requires AscendingKeys(list) && |shorter| == |list| - 1 >= 1 && shorter[0].key == list[0].key
    requires forall i | 0 < i < |shorter| :: shorter[i] == list[i + 1]
    ensures AscendingKeys(shorter)
  {
  }

  lemma LaterKeysDiffer(list: seq<Argument>, i: nat)
    requires AscendingKeys(list) && 2 <= i < |list|
    ensures list[i].key != list[0].key && list[i].key != list[1].key
  {
    assert Less(list[0].key, list[i].key) && Less(list[1].key, list[i].key);
    LessIrreflexive(list[i].key);
  }

  /** Any statement with two arguments shares its key. */
  lemma TwoArgumentsAreShared(st: Statement, list: seq<Argument>)
    requires Proper(st) && Lists(list, st.args) && |list| >= 2
    ensures !Unshared(st)
  {
    var m := Merged(list[0], list[1]);
    var other := st.(args := (st.args - {list[1].key})[m.key := m.value]);
    MergeListing(list, st.args);
    MergedText(list);
    LessIrreflexive(list[0].key);
    assert Less(list[0].key, list[1].key);
    var key := KeyText(st.operation, list, st.fields);
    assert IsKey(key, st);
    assert key == KeyText(other.operation, [m] + list[2..], other.fields) && IsKey(key, other);
    assert list[1].key in st.args && list[1].key !in other.args;
    assert Proper(other);
  }

  lemma SplitText(a: Argument, i: nat, j: nat)
    requires SplitsAt(a.key, a.value, i, j)
    ensures ArgsText([Argument(a.key, a.value[..i]), Argument(a.value[i + 1..j], a.value[j + 1..])]) == ArgsText([a])
  {
    var x, y := Argument(a.key, a.value[..i]), Argument(a.value[i + 1..j], a.value[j + 1..]);
    assert [x, y][1..] == [y] && [y][1..] == [] && [a][1..] == [];
    assert a.value == x.value + ";" + (y.key + "=" + y.value);
    assert PairText(a) == PairText(x) + PairText(y);
  }

  /** A lone argument that splits shares its key. */
  lemma SplittingIsShared(st: Statement, a: Argument)
    requires Proper(st) && Lists([a], st.args) && Splits(a.key, a.value)
    ensures !Unshared(st)
  {
    var i, j :| 0 <= i < j < |a.value| && SplitsAt(a.key, a.value, i, j);
    var x, y := Argument(a.key, a.value[..i]), Argument(a.value[i + 1..j], a.value[j + 1..]);
    var args := map[x.key := x.value, y.key := y.value];
    var other := st.(args := args);
    SplitText(a, i, j);
    LessIrreflexive(x.key);
    assert [a][0] == a && [x, y][0].key == x.key && [x, y][1].key == y.key;
    assert a.key in st.args;
    assert Lists([x, y], args);
    var key := KeyText(st.operation, [a], st.fields);
    assert IsKey(key, st);
    assert key == KeyText(other.operation, [x, y], other.fields) && IsKey(key, other);
    OneKey(st, a, y.key);
    assert y.key in other.args;
    assert Proper(other);
  }

  lemma OneKey(st: Statement, a: Argument, k: string)
    requires Lists([a], st.args) && k != a.key
    ensures k !in st.args
  {
  }

  /** A statement has its key to itself exactly when it is unambiguous. */
  lemma SharingIsExact(st: Statement, list: seq<Argument>)
    requires Proper(st) && Lists(list, st.args)
    ensures Unshared(st) <==> Unambiguous(st)
  {
    if Unambiguous(st) {
      UnambiguousIsUnshared(st);
    } else {
      AmbiguousListing(st, list);
      if |list| >= 2 {
        TwoArgumentsAreShared(st, list);
      } else {
        SplittingIsShared(st, list[0]);
      }
    }
  }

  lemma AmbiguousListing(st: Statement, list: seq<Argument>)
    requires Lists(list, st.args) && !Unambiguous(st)
    ensures |list| >= 2 || (|list| == 1 && list == [list[0]] && Splits(list[0].key, list[0].value))
  {
    var k, l :| k in st.args && l in st.args && !(k == l && !Splits(k, st.args[k]));
    var i :| 0 <= i < |list| && list[i].key == k;
    var j :| 0 <= j < |list| && list[j].key == l;
  }

  // ---- Two queries that would have one key ----

  const ONE_ARGUMENT := Statement("list", map["a" := "1;b=2"], [])

  const TWO_ARGUMENTS := Statement("list", map["a" := "1", "b" := "2"], [])

  lemma OneArgumentIsRead(text: string, unquote: string -> Option<string>)
    requires text == "list(a='1;b=2')"
    ensures ReadQuery(text, unquote) == Ok([ONE_ARGUMENT])
  {
    var operation, key, v := text[..4], text[5..6], text[8..13];
    assert operation == "list" && key == "a" && v == "1;b=2";
    QueryText.OneArgumentCall(operation, key, v, text, unquote);
  }

  lemma TwoArgumentsAreRead(text: string, unquote: string -> Option<string>)
    requires text == "list(a=1,b=2)"
    ensures ReadQuery(text, unquote) == Ok([TWO_ARGUMENTS])
  {
    var operation, k, v, l, w := text[..4], text[5..6], text[7..8], text[9..10], text[11..12];
    Spelled(text, operation, k, v, l, w);
    QueryText.ShortArgument(k, v);
    QueryText.ShortArgument(l, w);
    QueryText.TwoArgumentsCall(operation, k, v, l, w, text, unquote);
  }

  lemma Spelled(text: string, operation: string, k: string, v: string, l: string, w: string)
    requires text == "list(a=1,b=2)" && operation == text[..4]
    requires k == text[5..6] && v == text[7..8] && l == text[9..10] && w == text[11..12]
    ensures operation == "list" && SafeName(operation) && k == "a" && v == "1" && l == "b" && w == "2"
    ensures text == operation + "(" + (k + "=" + v + "," + (l + "=" + w)) + ")"
  {
  }

  lemma TheirKeys() returns (key: string)
    ensures IsKey(key, ONE_ARGUMENT) && IsKey(key, TWO_ARGUMENTS)
  {
    var x, y, z := Argument("a", "1;b=2"), Argument("a", "1"), Argument("b", "2");
    assert [x][0] == x && [y, z][0] == y && [y, z][1] == z;
    assert Lists([x], ONE_ARGUMENT.args);
    assert Lists([y, z], TWO_ARGUMENTS.args);
    assert SplitsAt(x.key, x.value, 1, 3) && x.value[..1] == "1" && x.value[2..3] == "b" && x.value[4..] == "2";
    SplitText(x, 1, 3);
    key := KeyText("list", [x], []);
    assert key == KeyText("list", [y, z], []);
  }

  /** Parse accepts both queries, as different statements that would have the one key. No key of theirs is
      ever taken: list refuses them for their argument names. */
  lemma AcceptedQueriesShareAKey(first: string, second: string, unquote: string -> Option<string>,
                                 adapter: FacadeArguments.Adapter)
    returns (key: string)
    requires first == "list(a='1;b=2')" && second == "list(a=1,b=2)"
    ensures ReadQuery(first, unquote) == Ok([ONE_ARGUMENT]) && ReadQuery(second, unquote) == Ok([TWO_ARGUMENTS])
    ensures ONE_ARGUMENT != TWO_ARGUMENTS && IsKey(key, ONE_ARGUMENT) && IsKey(key, TWO_ARGUMENTS)
    ensures FacadeArguments.Plan(ONE_ARGUMENT, adapter) == Err(FacadeArguments.UnknownArgument)
    ensures FacadeArguments.Plan(TWO_ARGUMENTS, adapter) == Err(FacadeArguments.UnknownArgument)
  {
    OneArgumentIsRead(first, unquote);
    TwoArgumentsAreRead(second, unquote);
    key := TheirKeys();
    assert "b" in TWO_ARGUMENTS.args && "b" !in ONE_ARGUMENT.args;
    assert "a" in TWO_ARGUMENTS.args && "a" in ONE_ARGUMENT.args && !FacadeArguments.ListKey("a");
  }
}
