/**
  What an accepted query means: proper statements, one per top-level segment, whose argument maps do
  not depend on the order in which the arguments are written; and no open parenthesis.
 */
module QueryMeaning {
  import opened Common
  import opened TextOps
  import opened QuerySplit
  import opened QueryParse

  // ---- Values and words ----

  function EscapeQuotes(v: string): string {
    if v == "" then "" else (if v[0] == '\'' then "\\'" else [v[0]]) + EscapeQuotes(v[1..])
  }

  lemma {:induction false} UnescapeInverts(v: string)
    ensures ReplaceEscapedQuote(EscapeQuotes(v)) == v
    ensures v == "" || v[0] == '\'' || EscapeQuotes(v)[0] == v[0]
    ensures EscapeQuotes(v) == "" || EscapeQuotes(v)[0] != '\''
  {
    if v != "" {
      var rest := EscapeQuotes(v[1..]);
      UnescapeInverts(v[1..]);
      assert v == [v[0]] + v[1..];
      if v[0] == '\'' {
        assert EscapeQuotes(v)[2..] == rest;
      } else {
        assert EscapeQuotes(v)[1..] == rest;
      }
    }
  }

  /** Every value can be written between single quotes and is read back as it was. */
  lemma QuotedValueRoundTrip(v: string, unquote: string -> Option<string>)
    ensures ParseValue("'" + EscapeQuotes(v) + "'", unquote) == Ok(v)
  {
    UnescapeInverts(v);
    var raw := "'" + EscapeQuotes(v) + "'";
    assert raw[1..|raw| - 1] == EscapeQuotes(v);
  }

  predicate Separates(c: char) {
    IsSpace(c) || c == ','
  }

  predicate Word(w: string) {
    w != "" && forall c | c in w :: !Separates(c)
  }

  /** The words of a projection are never empty and hold no separator. */
  lemma {:induction false} WordsAreWords(s: string, current: string)
    requires forall c | c in current :: !Separates(c)
    ensures forall w | w in Words(s, current) :: Word(w)
    decreases |s|
  {
    if s != "" {
      if Separates(s[0]) {
        WordsAreWords(s[1..], "");
      } else {
        WordsAreWords(s[1..], current + [s[0]]);
      }
    }
  }

  function Spaced(words: seq<string>): string {
    if words == [] then "" else words[0] + " " + Spaced(words[1..])
  }

  lemma {:induction false} WordIsRead(w: string, end: char, rest: string, current: string)
    requires Separates(end) && forall c | c in w :: !Separates(c)
    requires w != "" || current != ""
    ensures Words(w + [end] + rest, current) == [current + w] + Words(rest, "")
    decreases |w|
  {
    var s := w + [end] + rest;
    if w == "" {
      assert s[1..] == rest && current + w == current;
    } else {
      assert w[0] in w && s[0] == w[0] && !Separates(s[0]);
      assert w == [w[0]] + w[1..] && s[1..] == w[1..] + [end] + rest;
      WordIsRead(w[1..], end, rest, current + [w[0]]);
      assert current + [w[0]] + w[1..] == current + w;
    }
  }

  /** Written one behind the other, words are read back as they were. */
  lemma {:induction false} WordsRoundTrip(words: seq<string>)
    requires forall w | w in words :: Word(w)
    ensures Words(Spaced(words), "") == words
  {
    if words != [] {
      assert words[0] in words;
      WordIsRead(words[0], ' ', Spaced(words[1..]), "");
      WordsRoundTrip(words[1..]);
      assert "" + words[0] == words[0] && words == [words[0]] + words[1..];
    }
  }

  // ---- Argument maps ----

  /** The argument that a part stands for, when it is well formed. */
  function ArgumentOf(part: string, unquote: string -> Option<string>): Option<Argument> {
    var key, value := ArgumentKey(part), ArgumentValue(part, unquote);
    if key.Some? && value.Ok? then Some(Argument(key.value, value.value)) else None
  }

  function ArgumentsOf(parts: seq<string>, unquote: string -> Option<string>): (list: seq<Option<Argument>>)
    ensures |list| == |parts|
  {
    seq(|parts|, i requires 0 <= i < |parts| => ArgumentOf(parts[i], unquote))
  }

  function Insert(list: seq<Option<Argument>>, args: map<string, string>): Option<map<string, string>> {
    if list == [] then Some(args)
    else if list[0].None? || list[0].value.key in args then None
    else Insert(list[1..], args[list[0].value.key := list[0].value.value])
  }

  lemma {:induction false} CollectInserts(parts: seq<string>, args: map<string, string>,
                                          unquote: string -> Option<string>)
    ensures var r := Collect(parts, args, unquote);
      Insert(ArgumentsOf(parts, unquote), args) == if r.Ok? then Some(r.value) else None
    decreases |parts|
  {
    if parts != [] {
      var argument := ArgumentOf(parts[0], unquote);
      assert ArgumentsOf(parts, unquote)[1..] == ArgumentsOf(parts[1..], unquote);
      assert ArgumentsOf(parts, unquote)[0] == argument;
      if argument.Some? {
        CollectInserts(parts[1..], args[argument.value.key := argument.value.value], unquote);
      }
    }
  }

  /** Every part is an argument, and no key occurs twice or in args. */
  ghost predicate Insertable(list: seq<Option<Argument>>, args: map<string, string>) {
    && (forall i | 0 <= i < |list| :: list[i].Some? && list[i].value.key !in args)
    && KeysDiffer(list)
  }

  ghost predicate KeysDiffer(list: seq<Option<Argument>>) {
    forall i, j | 0 <= i < j < |list| :: !SameKey(list[i], list[j])
  }

  ghost predicate SameKey(a: Option<Argument>, b: Option<Argument>) {
    a.Some? && b.Some? && a.value.key == b.value.key
  }

  /** m holds the listed arguments on top of args, and nothing else. */
  ghost predicate Holds(m: map<string, string>, list: seq<Option<Argument>>, args: map<string, string>) {
    && (forall a | Some(a) in list :: a.key in m && m[a.key] == a.value)
    && (forall k | k in args && (forall a | Some(a) in list :: a.key != k) :: k in m && m[k] == args[k])
    && (forall k | k in m :: k in args || exists a :: Some(a) in list && a.key == k)
  }

  lemma {:induction false} InsertSound(list: seq<Option<Argument>>, args: map<string, string>)
    requires Insert(list, args).Some?
    ensures Insertable(list, args) && Holds(Insert(list, args).value, list, args)
  {
    if list != [] {
      var a := list[0].value;
      var more := args[a.key := a.value];
      InsertSound(list[1..], more);
      InsertableCons(a, list[1..], args);
      HoldsCons(Insert(list, args).value, a, list[1..], args);
      assert list == [Some(a)] + list[1..];
    }
  }

  lemma InsertableCons(a: Argument, rest: seq<Option<Argument>>, args: map<string, string>)
    requires Insertable(rest, args[a.key := a.value]) && a.key !in args
    ensures Insertable([Some(a)] + rest, args)
  {
    var list := [Some(a)] + rest;
    forall i, j | 0 <= i < j < |list| ensures !SameKey(list[i], list[j]) {
      assert list[j] == rest[j - 1];
    }
  }

  lemma HoldsCons(m: map<string, string>, a: Argument, rest: seq<Option<Argument>>, args: map<string, string>)
    requires Holds(m, rest, args[a.key := a.value]) && Insertable(rest, args[a.key := a.value])
    ensures Holds(m, [Some(a)] + rest, args)
  {
    forall k | k in m ensures k in args || exists x :: Some(x) in [Some(a)] + rest && x.key == k {
      if k !in args && k != a.key {
        var x :| Some(x) in rest && x.key == k;
        assert Some(x) in [Some(a)] + rest;
      } else if k == a.key {
        assert Some(a) in [Some(a)] + rest;
      }
    }
  }

  lemma {:induction false} InsertComplete(list: seq<Option<Argument>>, args: map<string, string>)
    requires Insertable(list, args)
    ensures Insert(list, args).Some?
  {
    if list != [] {
      var a := list[0].value;
      var more, rest := args[a.key := a.value], list[1..];
      forall i | 0 <= i < |rest| ensures rest[i].Some? && rest[i].value.key !in more {
        assert rest[i] == list[i + 1] && !SameKey(list[0], list[i + 1]);
      }
      forall i, j | 0 <= i < j < |rest| ensures !SameKey(rest[i], rest[j]) {
        assert !SameKey(list[i + 1], list[j + 1]);
      }
      InsertComplete(rest, more);
    }
  }

  lemma HoldsOnce(m: map<string, string>, n: map<string, string>, a: seq<Option<Argument>>, b: seq<Option<Argument>>)
    requires Holds(m, a, map[]) && Holds(n, b, map[])
    requires forall x :: x in a <==> x in b
    ensures m == n
  {
    forall k | k in m ensures k in n && n[k] == m[k] {
      var x :| Some(x) in a && x.key == k;
    }
    forall k | k in n ensures k in m {
      var x :| Some(x) in b && x.key == k;
    }
  }

  lemma {:induction false} Twice<T>(s: seq<T>, i: nat, j: nat)
    requires i < j < |s| && s[i] == s[j]
    ensures multiset(s)[s[i]] >= 2
  {
    assert s == s[..j] + [s[j]] + s[j + 1..];
    assert s[i] in s[..j];
  }

  lemma {:induction false} TwoPlaces<T>(s: seq<T>, x: T) returns (i: nat, j: nat)
    requires multiset(s)[x] >= 2
    ensures i < j < |s| && s[i] == x && s[j] == x
  {
    assert s == [s[0]] + s[1..];
    if s[0] == x {
      assert x in multiset(s[1..]);
      i := 0;
      var k :| 0 <= k < |s[1..]| && s[1..][k] == x;
      j := k + 1;
    } else {
      i, j := TwoPlaces(s[1..], x);
      i, j := i + 1, j + 1;
    }
  }

  lemma KeysDifferInAnyOrder(a: seq<Option<Argument>>, b: seq<Option<Argument>>)
    requires KeysDiffer(a) && multiset(a) == multiset(b)
    ensures KeysDiffer(b)
  {
    SameElements(a, b);
    forall i, j | 0 <= i < j < |b| ensures !SameKey(b[i], b[j]) {
      if b[i] == b[j] {
        Twice(b, i, j);
        var k, l := TwoPlaces(a, b[i]);
        assert !SameKey(a[k], a[l]);
      } else {
        var k :| 0 <= k < |a| && a[k] == b[i];
        var l :| 0 <= l < |a| && a[l] == b[j];
        assert !SameKey(a[k], a[l]) && !SameKey(a[l], a[k]);
      }
    }
  }

  /** The order in which arguments are written decides neither acceptance nor the map. */
  lemma ArgumentOrderIrrelevant(a: seq<string>, b: seq<string>, unquote: string -> Option<string>)
    requires multiset(ArgumentsOf(a, unquote)) == multiset(ArgumentsOf(b, unquote))
    requires Collect(a, map[], unquote).Ok?
    ensures Collect(b, map[], unquote) == Collect(a, map[], unquote)
  {
    CollectInserts(a, map[], unquote);
    CollectInserts(b, map[], unquote);
    InsertOrderIrrelevant(ArgumentsOf(a, unquote), ArgumentsOf(b, unquote));
  }

  lemma InsertOrderIrrelevant(a: seq<Option<Argument>>, b: seq<Option<Argument>>)
    requires multiset(a) == multiset(b) && Insert(a, map[]).Some?
    ensures Insert(b, map[]) == Insert(a, map[])
  {
    InsertSound(a, map[]);
    KeysDifferInAnyOrder(a, b);
    SameElements(a, b);
    forall i | 0 <= i < |b| ensures b[i].Some? {
      assert b[i] in a;
    }
    InsertComplete(b, map[]);
    InsertSound(b, map[]);
    HoldsOnce(Insert(a, map[]).value, Insert(b, map[]).value, a, b);
  }

  /** An argument list is accepted exactly when every part is an argument and no key is repeated. */
  lemma AcceptedArguments(parts: seq<string>, unquote: string -> Option<string>)
    ensures Collect(parts, map[], unquote).Ok? <==> Insertable(ArgumentsOf(parts, unquote), map[])
    ensures Collect(parts, map[], unquote).Ok?
      ==> Holds(Collect(parts, map[], unquote).value, ArgumentsOf(parts, unquote), map[])
  {
    var list := ArgumentsOf(parts, unquote);
    CollectInserts(parts, map[], unquote);
    if Insert(list, map[]).Some? {
      InsertSound(list, map[]);
    } else if Insertable(list, map[]) {
      InsertComplete(list, map[]);
    }
  }

  // ---- Proper statements ----

  ghost predicate FieldNames(s: seq<string>) {
    forall f | f in s :: FieldName(f)
  }

  ghost predicate Keys(args: map<string, string>) {
    forall k | k in args :: FieldName(k)
  }

  ghost predicate Distinct(s: seq<string>) {
    forall i, j | 0 <= i < j < |s| :: s[i] != s[j]
  }

  ghost predicate Proper(st: Statement) {
    SafeName(st.operation) && Keys(st.args) && FieldNames(st.fields) && Distinct(st.fields)
  }

  lemma {:induction false} CollectKeys(parts: seq<string>, args: map<string, string>, unquote: string -> Option<string>)
    requires Keys(args)
    ensures var r := Collect(parts, args, unquote); if r.Ok? then Keys(r.value) else r.error != Unclosed
    decreases |parts|
  {
    if parts != [] {
      var key, value := ArgumentKey(parts[0]), ArgumentValue(parts[0], unquote);
      ValueErrors(parts[0], unquote);
      if key.Some? && key.value !in args && value.Ok? {
        CollectKeys(parts[1..], args[key.value := value.value], unquote);
      }
    }
  }

  lemma ValueErrors(part: string, unquote: string -> Option<string>)
    ensures var r := ArgumentValue(part, unquote); r.Err? ==> r.error != Unclosed
  {
  }

  /** The projected words are kept as written: fields, then words. */
  lemma {:induction false} ProjectKeeps(words: seq<string>, fields: seq<string>)
    requires FieldNames(fields) && Distinct(fields)
    ensures var r := Project(words, fields);
      if r.Ok? then r.value == fields + words && FieldNames(r.value) && Distinct(r.value) else r.error == BadField
    decreases |words|
  {
    if words == [] {
      assert fields + words == fields;
    } else if FieldName(words[0]) && words[0] !in fields {
      ProjectKeeps(words[1..], fields + [words[0]]);
      assert fields + [words[0]] + words[1..] == fields + words;
    }
  }

  lemma SplitErrors(input: string, sep: char)
    ensures Split(input, sep).Err? ==> Split(input, sep).error == EmptyPart || Split(input, sep).error == Unbalanced
  {
  }

  lemma ArgsProper(input: string, unquote: string -> Option<string>)
    ensures var r := ReadArgs(input, unquote); if r.Ok? then Keys(r.value) else r.error != Unclosed
  {
    SplitErrors(input, ',');
    if !Blank(input) && Split(input, ',').Ok? {
      CollectKeys(Split(input, ',').value, map[], unquote);
    }
  }

  lemma FieldsProper(tail: string)
    ensures var r := ReadFields(tail); if r.Ok? then FieldNames(r.value) && Distinct(r.value) else r.error != Unclosed
  {
    if tail != "" && |tail| >= 2 {
      ProjectKeeps(Words(TrimSpace(tail[1..|tail| - 1]), ""), []);
    }
  }

  lemma PiecesProper(p: Pieces, unquote: string -> Option<string>)
    requires SafeName(p.name)
    ensures var r := ReadPieces(p, unquote); if r.Ok? then Proper(r.value) else r.error != Unclosed
  {
    ArgsProper(p.inside, unquote);
    FieldsProper(TrimSpace(p.tail));
  }

  lemma CleaveProper(text: string)
    ensures var r := Cleave(text); r.Ok? ==> SafeName(r.value.name)
    ensures Single(START, text, ';') ==> Cleave(text) != Err(Unclosed)
  {
    if Cleave(text) == Err(Unclosed) && Single(START, text, ';') {
      OpenedIsClosed(text, IndexOf(text, '('));
    }
  }

  lemma StatementProper(text: string, unquote: string -> Option<string>)
    requires Single(START, text, ';')
    ensures var r := ReadStatement(text, unquote); if r.Ok? then Proper(r.value) else r.error != Unclosed
  {
    CleaveProper(text);
    if Cleave(text).Ok? {
      PiecesProper(Cleave(text).value, unquote);
    }
  }

  lemma {:induction false} TrimLeftKeeps(s: string, c: char)
    requires c in s && !IsSpace(c)
    ensures c in TrimLeft(s)
  {
    if s != "" && IsSpace(s[0]) {
      assert s == [s[0]] + s[1..];
      TrimLeftKeeps(s[1..], c);
    }
  }

  lemma {:induction false} TrimRightKeeps(s: string, c: char)
    requires c in s && !IsSpace(c)
    ensures c in TrimRight(s)
  {
    if s != "" && IsSpace(s[|s| - 1]) {
      assert s == s[..|s| - 1] + [s[|s| - 1]];
      TrimRightKeeps(s[..|s| - 1], c);
    }
  }

  lemma {:induction false} PlainLeavesScanAlone(s: string)
    requires forall c | c in s :: IsSpace(c) || SafeChar(c)
    ensures After(START, s) == START
  {
    if s != "" {
      assert s[0] in s;
      forall c | c in s[1..] ensures c in s { }
      PlainLeavesScanAlone(s[1..]);
    }
  }

  /** In front of the parenthesis stand a name and white space, which no scanner reacts to. */
  lemma NameLeavesScanAlone(prefix: string)
    requires SafeName(TrimSpace(prefix))
    ensures After(START, prefix) == START
  {
    forall c | c in prefix ensures IsSpace(c) || SafeChar(c) {
      if !IsSpace(c) {
        TrimLeftKeeps(prefix, c);
        TrimRightKeeps(TrimLeft(prefix), c);
      }
    }
    PlainLeavesScanAlone(prefix);
  }

  /** A statement that stands alone in the query's scan closes the parenthesis behind its name. */
  lemma OpenedIsClosed(input: string, open: nat)
    requires open < |input| && input[open] == '(' && SafeName(TrimSpace(input[..open]))
    requires Single(START, input, ';')
    ensures CloseAt(input, open).Some?
  {
    NameLeavesScanAlone(input[..open]);
    SegmentCloses(input, open, ';');
  }

  // ---- Whole queries ----

  ghost predicate AllProper(statements: seq<Statement>) {
    forall st | st in statements :: Proper(st)
  }

  ghost predicate StandAlone(parts: seq<string>) {
    forall part | part in parts :: Single(START, part, ';') && TrimSpace(part) == part
  }

  lemma {:induction false} ReadAllProper(parts: seq<string>, statements: seq<Statement>,
                                         unquote: string -> Option<string>)
    requires StandAlone(parts) && AllProper(statements)
    ensures var r := ReadAll(parts, statements, unquote);
      if r.Ok? then AllProper(r.value) && |r.value| == |statements| + |parts| else r.error != Unclosed
    decreases |parts|
  {
    if parts != [] {
      assert parts[0] in parts;
      StatementProper(parts[0], unquote);
      var st := ReadStatement(parts[0], unquote);
      if st.Ok? {
        ReadAllProper(parts[1..], statements + [st.value], unquote);
      }
    }
  }

  /** No text at all makes Parse report an unclosed parenthesis, and what it accepts is proper. */
  lemma AcceptedQueryIsProper(input: string, unquote: string -> Option<string>)
    ensures ReadQuery(input, unquote) != Err(Unclosed)
    ensures var r := ReadQuery(input, unquote); r.Ok? ==> AllProper(r.value) && 1 <= |r.value| <= MAX_STATEMENTS
    ensures var r := ReadQuery(input, unquote); r.Ok? ==> |r.value| == |Split(input, ';').value|
  {
    SplitErrors(input, ';');
    var parts := Split(input, ';');
    if parts.Ok? {
      forall part | part in parts.value ensures Single(START, part, ';') && TrimSpace(part) == part {
        PartsResplitAlone(input, ';', part);
      }
      var first, rest := SplitIsSegments(input, ';');
      ReadAllProper(parts.value, [], unquote);
    }
  }
}
