/**
  Writing queries so that internal/browserfacade/parser.go reads them back: which values survive single
  quotes, and that a query written out from statements is parsed into exactly those statements.
 */
module QueryText {
  import opened Common
  import opened TextOps
  import opened QuerySplit
  import opened QueryParse
  import opened QueryMeaning

  // ---- Text that the scanners pass through ----

  /** From s the scan of t never goes below zero, and it ends at top level. */
  predicate Balanced(s: Scan, t: string)
    decreases |t|
  {
    if t == "" then AtTop(s) else NonNegative(Step(s, t[0])) && Balanced(Step(s, t[0]), t[1..])
  }

  /** Neither a quote mark nor a bracket. */
  predicate Neutral(c: char) {
    Step(START, c) == START
  }

  lemma {:induction false} SingleIsBalanced(s: Scan, t: string, sep: char)
    requires Single(s, t, sep)
    ensures Balanced(s, t)
    decreases |t|
  {
    if t != "" {
      SingleIsBalanced(Step(s, t[0]), t[1..], sep);
    }
  }

  lemma {:induction false} BalancedAppend(s: Scan, a: string, b: string)
    requires Sane(s) && Balanced(s, a) && Balanced(START, b)
    ensures Balanced(s, a + b)
    decreases |a|
  {
    if a == "" {
      TopIsStart(s);
      assert a + b == b;
    } else {
      assert (a + b)[1..] == a[1..] + b;
      BalancedAppend(Step(s, a[0]), a[1..], b);
    }
  }

  lemma {:induction false} NeutralPrefix(p: string, t: string, sep: char)
    requires forall c | c in p :: Neutral(c) && c != sep
    ensures Single(START, p + t, sep) <==> Single(START, t, sep)
    decreases |p|
  {
    if p == "" {
      assert p + t == t;
    } else {
      assert p[0] in p && (p + t)[1..] == p[1..] + t;
      NeutralPrefix(p[1..], t, sep);
    }
  }

  lemma NeutralText(t: string, sep: char)
    requires forall c | c in t :: Neutral(c) && c != sep
    ensures Single(START, t, sep)
  {
    NeutralPrefix(t, "", sep);
    assert t + "" == t;
  }

  lemma Trimmed(t: string)
    requires t != "" && !IsSpace(t[0]) && !IsSpace(t[|t| - 1])
    ensures TrimSpace(t) == t
  {
  }

  lemma NotBlank(t: string)
    requires t != "" && !IsSpace(t[0])
    ensures !Blank(t)
  {
    TrimRightKeeps(t, t[0]);
  }

  lemma NameIsTrimmed(key: string)
    requires FieldName(key) || SafeName(key)
    ensures TrimSpace(key) == key
  {
    assert key[|key| - 1] in key;
    Trimmed(key);
  }

  lemma NameIsNeutral(key: string)
    requires FieldName(key) || SafeName(key)
    ensures forall c | c in key :: Neutral(c) && c != ',' && c != ';' && c != '=' && c != '('
  {
  }

  // ---- A quoted value in its argument ----

  function QuotedText(v: string): string {
    "'" + EscapeQuotes(v) + "'"
  }

  /** Written between quotes the value reads as one argument for splitTopLevel, which takes a backslash
      inside quotes for an escape where parseValue does not. */
  predicate Survives(v: string) {
    Single(START, QuotedText(v), ',')
  }

  lemma KeyedIsOnePart(key: string, value: string)
    requires FieldName(key)
    ensures Single(START, key + "=" + value, ',') <==> Single(START, value, ',')
  {
    NameIsNeutral(key);
    forall c | c in key + "=" ensures Neutral(c) && c != ',' { }
    NeutralPrefix(key + "=", value, ',');
  }

  /** What a part key=value is, whatever stands for the value. */
  lemma KeyedArgument(key: string, value: string, unquote: string -> Option<string>)
    requires FieldName(key) && TrimSpace(value) == value
    ensures ArgumentKey(key + "=" + value) == Some(key)
    ensures ArgumentValue(key + "=" + value, unquote) == ParseValue(value, unquote)
  {
    var part := key + "=" + value;
    NameIsNeutral(key);
    NameIsTrimmed(key);
    IndexOfDelimiter(key, value, '=');
    assert part == key + ['='] + value;
    assert part[..|key|] == key && part[|key| + 1..] == value;
  }

  lemma QuotedArgument(key: string, v: string, unquote: string -> Option<string>)
    requires FieldName(key)
    ensures ArgumentOf(key + "=" + QuotedText(v), unquote) == Some(Argument(key, v))
  {
    Trimmed(QuotedText(v));
    KeyedArgument(key, QuotedText(v), unquote);
    QuotedValueRoundTrip(v, unquote);
  }

  lemma PartIsTrimmed(key: string, value: string)
    requires FieldName(key) && value != "" && !IsSpace(value[|value| - 1])
    ensures var part := key + "=" + value; TrimSpace(part) == part && !Blank(part) && !IsSpace(part[0])
  {
    var part := key + "=" + value;
    assert part[0] == key[0] && part[|part| - 1] == value[|value| - 1];
    Trimmed(part);
  }

  lemma FirstTwoKeys(m: map<string, string>, list: seq<Option<Argument>>)
    requires Insertable(list, map[]) && Holds(m, list, map[]) && |list| >= 2
    ensures list[0].Some? && list[1].Some? && list[0].value.key != list[1].value.key
    ensures list[0].value.key in m && list[1].value.key in m
  {
    assert !SameKey(list[0], list[1]) && list[0] in list && list[1] in list;
  }

  /** A list that reads as the one argument key has no second part. */
  lemma OneKeyOnePart(part: string, key: string, v: string, unquote: string -> Option<string>)
    requires ReadArgs(part, unquote) == Ok(map[key := v]) && !Blank(part)
    ensures Single(START, part, ',')
  {
    var first, rest := SplitIsSegments(part, ',');
    var parts := Split(part, ',').value;
    AcceptedArguments(parts, unquote);
    if rest != [] {
      FirstTwoKeys(map[key := v], ArgumentsOf(parts, unquote));
    }
  }

  lemma OnePartIsRead(part: string, a: Argument, unquote: string -> Option<string>)
    requires Single(START, part, ',') && TrimSpace(part) == part && !Blank(part)
    requires ArgumentOf(part, unquote) == Some(a)
    ensures ReadArgs(part, unquote) == Ok(map[a.key := a.value])
  {
    AloneSplits(part, ',');
    assert [part][1..] == [];
    assert Collect([], map[a.key := a.value], unquote) == Ok(map[a.key := a.value]);
  }

  /** Written between single quotes behind its key, a value is read back as it was if and only if it
      survives the splitting. */
  lemma QuotedArgumentRoundTrip(key: string, v: string, unquote: string -> Option<string>)
    requires FieldName(key)
    ensures ReadArgs(key + "=" + QuotedText(v), unquote) == Ok(map[key := v]) <==> Survives(v)
  {
    var part := key + "=" + QuotedText(v);
    KeyedIsOnePart(key, QuotedText(v));
    PartIsTrimmed(key, QuotedText(v));
    if Survives(v) {
      QuotedArgument(key, v, unquote);
      OnePartIsRead(part, Argument(key, v), unquote);
    } else if ReadArgs(part, unquote) == Ok(map[key := v]) {
      OneKeyOnePart(part, key, v, unquote);
    }
  }

  /** An even number of backslashes stands in front of every single quote and of the end; odd: behind an
      odd number already. */
  predicate Steady(v: string, odd: bool) {
    if v == "" then !odd
    else if v[0] == '\\' then Steady(v[1..], !odd)
    else if v[0] == '\'' then !odd && Steady(v[1..], false)
    else Steady(v[1..], false)
  }

  function InQuotes(odd: bool): Scan {
    Scan(Some('\''), odd, 0, 0)
  }

  lemma EscapeOne(v: string)
    requires v != ""
    ensures EscapeQuotes(v) + "'" == (if v[0] == '\'' then "\\'" else [v[0]]) + (EscapeQuotes(v[1..]) + "'")
  {
  }

  lemma SingleTwo(s: Scan, a: char, b: char, t: string, sep: char)
    requires NonNegative(Step(s, a)) && !CutsHere(s, a, sep) && NonNegative(Step(Step(s, a), b))
      && !CutsHere(Step(s, a), b, sep)
    ensures Single(s, [a, b] + t, sep) <==> Single(Step(Step(s, a), b), t, sep)
  {
    assert ([a, b] + t)[1..] == [b] + t && ([b] + t)[1..] == t;
  }

  lemma {:induction false} SteadyScan(v: string, odd: bool)
    ensures Steady(v, odd) ==> Single(InQuotes(odd), EscapeQuotes(v) + "'", ',')
    ensures '\'' !in v && !Steady(v, odd) ==> !Single(InQuotes(odd), EscapeQuotes(v) + "'", ',')
    decreases |v|
  {
    if v == "" {
      assert EscapeQuotes(v) + "'" == "'" && "'"[1..] == "";
    } else {
      var t := EscapeQuotes(v[1..]) + "'";
      EscapeOne(v);
      SteadyScan(v[1..], v[0] == '\\' && !odd);
      if v[0] == '\'' {
        if !odd { SingleTwo(InQuotes(false), '\\', '\'', t, ','); }
      } else {
        assert ([v[0]] + t)[1..] == t;
        assert '\'' !in v ==> '\'' !in v[1..];
      }
    }
  }

  /** Steady values survive; of the values without a single quote no others do. */
  lemma SteadySurvives(v: string)
    ensures Steady(v, false) ==> Survives(v)
    ensures '\'' !in v ==> (Survives(v) <==> Steady(v, false))
  {
    SteadyScan(v, false);
    assert QuotedText(v)[1..] == EscapeQuotes(v) + "'";
    assert Step(START, '\'') == InQuotes(false);
  }

  lemma CutOne(s: Scan, c: char, t: string, current: string, sep: char)
    requires NonNegative(Step(s, c)) && !CutsHere(s, c, sep)
    ensures Cut(s, [c] + t, current, sep) == Cut(Step(s, c), t, current + [c], sep)
  {
    assert ([c] + t)[1..] == t;
  }

  lemma {:induction false} NeutralCut(p: string, t: string, current: string, sep: char)
    requires forall c | c in p :: Neutral(c) && c != sep
    ensures Cut(START, p + t, current, sep) == Cut(START, t, current + p, sep)
    decreases |p|
  {
    if p == "" {
      assert p + t == t && current + p == current;
    } else {
      assert p[0] in p && p + t == [p[0]] + (p[1..] + t);
      CutOne(START, p[0], p[1..] + t, current, sep);
      NeutralCut(p[1..], t, current + [p[0]], sep);
      assert current + [p[0]] + p[1..] == current + p;
    }
  }

  /** Behind an odd run of backslashes the closing quote is taken for escaped. */
  lemma {:induction false} UnsteadyStaysOpen(v: string, odd: bool, current: string)
    requires '\'' !in v && !Steady(v, odd)
    ensures Cut(InQuotes(odd), v + "'", current, ',') == Cuts([], false)
    decreases |v|
  {
    if v == "" {
      CutOne(InQuotes(true), '\'', "", current, ',');
      assert v + "'" == ['\''] + "";
    } else {
      assert v[0] in v && v + "'" == [v[0]] + (v[1..] + "'");
      assert '\'' !in v[1..] by { forall c | c in v[1..] ensures c in v { } }
      CutOne(InQuotes(odd), v[0], v[1..] + "'", current, ',');
      UnsteadyStaysOpen(v[1..], v[0] == '\\' && !odd, current + [v[0]]);
    }
  }

  lemma {:induction false} NothingToEscape(v: string)
    requires '\'' !in v
    ensures EscapeQuotes(v) == v
  {
    if v != "" {
      assert v == [v[0]] + v[1..] && v[0] in v;
      NothingToEscape(v[1..]);
    }
  }

  lemma UnbalancedIsRefused(t: string, unquote: string -> Option<string>)
    requires Cut(START, t, "", ',') == Cuts([], false) && !Blank(t)
    ensures ReadArgs(t, unquote) == Err(Unbalanced)
  {
  }

  /** A value without single quotes that ends in an odd run of backslashes, such as one backslash alone, is
      refused between quotes. */
  lemma UnsteadyIsRefused(key: string, v: string, unquote: string -> Option<string>)
    requires FieldName(key) && '\'' !in v && !Steady(v, false)
    ensures ReadArgs(key + "=" + QuotedText(v), unquote) == Err(Unbalanced)
  {
    NothingToEscape(v);
    NameIsNeutral(key);
    PartIsTrimmed(key, QuotedText(v));
    forall c | c in key + "=" ensures Neutral(c) && c != ',' { }
    NeutralCut(key + "=", QuotedText(v), "", ',');
    CutOne(START, '\'', v + "'", "" + (key + "="), ',');
    assert QuotedText(v) == ['\''] + (v + "'");
    UnsteadyStaysOpen(v, false, "" + (key + "=") + ['\'']);
    UnbalancedIsRefused(key + "=" + QuotedText(v), unquote);
  }

  lemma OneBackslashIsRefused(unquote: string -> Option<string>)
    ensures ReadArgs("a='\\'", unquote) == Err(Unbalanced)
  {
    assert "\\"[1..] == "" && !Steady("\\", false);
    NothingToEscape("\\");
    UnsteadyIsRefused("a", "\\", unquote);
    assert "a" + "=" + QuotedText("\\") == "a='\\'";
  }

  // ---- Calls ----

  function Deeper(s: Scan): Scan {
    s.(paren := s.paren + 1)
  }

  lemma StepDeeper(s: Scan, c: char)
    requires Sane(s) && NonNegative(s) && NonNegative(Step(s, c))
    ensures Step(Deeper(s), c) == Deeper(Step(s, c)) && Sane(Step(s, c)) && NonNegative(Deeper(Step(s, c)))
    ensures !(s.quote.None? && c == ')' && s.paren == 0) && !CutsHere(Deeper(s), c, ';')
  {
  }

  lemma CloseOne(s: Scan, c: char, t: string)
    requires !(s.quote.None? && c == ')' && s.paren - 1 == 0)
    ensures Close(s, [c] + t) == Offset(1, Close(Step(s, c), t))
  {
    assert ([c] + t)[1..] == t;
  }

  /** The parenthesis behind balanced text closes the one in front of it. */
  lemma {:induction false} InCall(s: Scan, t: string, tail: string)
    requires Sane(s) && NonNegative(s) && Balanced(s, t)
    ensures Close(Deeper(s), t + ([')'] + tail)) == Some(|t|)
    decreases |t|
  {
    if t == "" {
      TopIsStart(s);
      assert t + ([')'] + tail) == [')'] + tail;
    } else {
      var rest := t[1..] + ([')'] + tail);
      assert t + ([')'] + tail) == [t[0]] + rest;
      StepDeeper(s, t[0]);
      InCall(Step(s, t[0]), t[1..], tail);
      CloseOne(Deeper(s), t[0], rest);
    }
  }

  /** What follows it is scanned from the top again. */
  lemma {:induction false} BehindCall(s: Scan, t: string, tail: string)
    requires Sane(s) && NonNegative(s) && Balanced(s, t) && Single(START, tail, ';')
    ensures Single(Deeper(s), t + ([')'] + tail), ';')
    decreases |t|
  {
    if t == "" {
      TopIsStart(s);
      SingleCons(Deeper(START), ')', tail, ';');
      assert t + ([')'] + tail) == [')'] + tail;
    } else {
      var rest := t[1..] + ([')'] + tail);
      assert t + ([')'] + tail) == [t[0]] + rest;
      StepDeeper(s, t[0]);
      BehindCall(Step(s, t[0]), t[1..], tail);
      SingleCons(Deeper(s), t[0], rest, ';');
    }
  }

  function CallText(operation: string, inside: string, tail: string): string {
    operation + ['('] + (inside + ([')'] + tail))
  }

  lemma CallParts(operation: string, inside: string, tail: string)
    ensures var text, n := CallText(operation, inside, tail), |operation|;
      && n < |text| && text[..n] == operation && text[n..] == ['('] + (inside + ([')'] + tail))
      && n + 1 + |inside| < |text| && text[n + 1..n + 1 + |inside|] == inside && text[n + 1 + |inside| + 1..] == tail
  {
  }

  lemma CallCloses(operation: string, inside: string, tail: string) returns (close: nat)
    requires Balanced(START, inside)
    ensures var text, n := CallText(operation, inside, tail), |operation|;
      && n < close < |text| && text[..n] == operation && CloseAt(text, n) == Some(close)
      && text[n + 1..close] == inside && text[close + 1..] == tail
  {
    CallParts(operation, inside, tail);
    InCall(START, inside, tail);
    CloseOne(START, '(', inside + ([')'] + tail));
    close := |operation| + 1 + |inside|;
  }

  lemma CallOpens(operation: string, inside: string, tail: string)
    requires SafeName(operation)
    ensures IndexOf(CallText(operation, inside, tail), '(') == |operation|
  {
    NameIsNeutral(operation);
    IndexOfDelimiter(operation, inside + ([')'] + tail), '(');
  }

  lemma CleaveAt(text: string, open: nat, close: nat, name: string)
    requires 1 <= open < close < |text| && IndexOf(text, '(') == open && CloseAt(text, open) == Some(close)
    requires TrimSpace(text[..open]) == name
    ensures Cleave(text) == CleaveFrom(text, open, Some(close), name)
  {
  }

  lemma CleavePieces(text: string, open: nat, close: nat, name: string, inside: string, tail: string)
    requires open < close < |text| && SafeName(name) && text[open + 1..close] == inside && text[close + 1..] == tail
    ensures CleaveFrom(text, open, Some(close), name) == Ok(Pieces(name, inside, tail))
  {
  }

  /** A call falls into its name, what stands inside its parentheses and what stands behind them. */
  lemma CallIsCleft(operation: string, inside: string, tail: string)
    requires SafeName(operation) && Balanced(START, inside)
    ensures Cleave(CallText(operation, inside, tail)) == Ok(Pieces(operation, inside, tail))
  {
    NameIsTrimmed(operation);
    CallOpens(operation, inside, tail);
    var close := CallCloses(operation, inside, tail);
    CleaveAt(CallText(operation, inside, tail), |operation|, close, operation);
    CleavePieces(CallText(operation, inside, tail), |operation|, close, operation, inside, tail);
  }

  lemma CallIsSingle(operation: string, inside: string, tail: string)
    requires SafeName(operation) && Balanced(START, inside) && Single(START, tail, ';')
    ensures Single(START, CallText(operation, inside, tail), ';')
  {
    var rest := inside + ([')'] + tail);
    NameIsNeutral(operation);
    BehindCall(START, inside, tail);
    SingleCons(START, '(', rest, ';');
    NeutralPrefix(operation, ['('] + rest, ';');
    assert operation + (['('] + rest) == CallText(operation, inside, tail);
  }

  lemma CallIsTrimmed(operation: string, inside: string, tail: string)
    requires SafeName(operation) && (tail == "" || !IsSpace(tail[|tail| - 1]))
    ensures var text := CallText(operation, inside, tail); TrimSpace(text) == text && !Blank(text)
  {
    var text := CallText(operation, inside, tail);
    assert text[|text| - 1] == if tail == "" then ')' else tail[|tail| - 1];
    Trimmed(text);
  }

  // ---- Statements written out ----

  datatype Form = Bare(value: string) | Quoted(value: string)

  datatype Entry = Entry(key: string, form: Form)

  datatype Draft = Draft(operation: string, list: seq<Entry>, fields: seq<string>)

  function FormText(f: Form): string {
    match f
    case Bare(v) => v
    case Quoted(v) => QuotedText(v)
  }

  /** A bare value holds no quote mark, no reserved punctuation and no white space at its ends. */
  predicate Writable(f: Form) {
    match f
    case Bare(v) =>
      v != "" && !IsSpace(v[0]) && !IsSpace(v[|v| - 1]) && forall c | c in v :: Neutral(c) && c != ',' && c != ';'
    case Quoted(v) => Survives(v)
  }

  function EntryText(e: Entry): string {
    e.key + "=" + FormText(e.form)
  }

  function EntryTexts(list: seq<Entry>): (texts: seq<string>)
    ensures |texts| == |list|
  {
    seq(|list|, i requires 0 <= i < |list| => EntryText(list[i]))
  }

  function ListText(list: seq<Entry>): string {
    if list == [] then "" else Join(EntryText(list[0]), EntryTexts(list[1..]), ',')
  }

  function FieldsText(fields: seq<string>): string {
    if fields == [] then "" else ['{'] + (Join(fields[0], fields[1..], ',') + ['}'])
  }

  function DraftText(d: Draft): string {
    CallText(d.operation, ListText(d.list), FieldsText(d.fields))
  }

  /** The map that the entries stand for. */
  function Entered(list: seq<Entry>, args: map<string, string>): map<string, string> {
    if list == [] then args else Entered(list[1..], args[list[0].key := list[0].form.value])
  }

  function Meaning(d: Draft): Statement {
    Statement(d.operation, Entered(d.list, map[]), d.fields)
  }

  ghost predicate WritableList(list: seq<Entry>) {
    forall e | e in list :: FieldName(e.key) && Writable(e.form)
  }

  ghost predicate EntryKeysDiffer(list: seq<Entry>) {
    forall i, j | 0 <= i < j < |list| :: list[i].key != list[j].key
  }

  ghost predicate WritableDraft(d: Draft) {
    SafeName(d.operation) && WritableList(d.list) && EntryKeysDiffer(d.list) && FieldNames(d.fields)
      && Distinct(d.fields)
  }

  // ---- Entries are read back ----

  lemma BareValue(v: string, unquote: string -> Option<string>)
    requires Writable(Bare(v))
    ensures ParseValue(v, unquote) == Ok(v)
  {
    assert v[0] in v;
    assert forall c | c in "{}();," :: c == ',' || c == ';' || !Neutral(c);
  }

  lemma BareIsRead(key: string, v: string, unquote: string -> Option<string>)
    requires FieldName(key) && Writable(Bare(v))
    ensures Single(START, v, ',') && ArgumentOf(key + "=" + v, unquote) == Some(Argument(key, v))
  {
    NeutralText(v, ',');
    Trimmed(v);
    KeyedArgument(key, v, unquote);
    BareValue(v, unquote);
  }

  lemma EntryIsRead(e: Entry, unquote: string -> Option<string>)
    requires FieldName(e.key) && Writable(e.form)
    ensures Single(START, EntryText(e), ',') && TrimSpace(EntryText(e)) == EntryText(e) && !Blank(EntryText(e))
    ensures ArgumentOf(EntryText(e), unquote) == Some(Argument(e.key, e.form.value))
    ensures !IsSpace(EntryText(e)[0])
  {
    var value := FormText(e.form);
    if e.form.Bare? {
      BareIsRead(e.key, value, unquote);
    } else {
      QuotedArgument(e.key, e.form.value, unquote);
    }
    KeyedIsOnePart(e.key, value);
    PartIsTrimmed(e.key, value);
  }

  lemma CollectOne(part: string, rest: seq<string>, args: map<string, string>, a: Argument,
                   unquote: string -> Option<string>)
    requires ArgumentOf(part, unquote) == Some(a) && a.key !in args
    ensures Collect([part] + rest, args, unquote) == Collect(rest, args[a.key := a.value], unquote)
  {
    assert ([part] + rest)[1..] == rest;
  }

  lemma {:induction false} EntriesCollect(list: seq<Entry>, args: map<string, string>,
                                          unquote: string -> Option<string>)
    requires WritableList(list) && EntryKeysDiffer(list) && forall e | e in list :: e.key !in args
    ensures Collect(EntryTexts(list), args, unquote) == Ok(Entered(list, args))
    decreases |list|
  {
    if list != [] {
      var more := args[list[0].key := list[0].form.value];
      assert list[0] in list;
      EntryIsRead(list[0], unquote);
      forall e | e in list[1..] ensures e in list && e.key !in more { }
      EntriesCollect(list[1..], more, unquote);
      CollectOne(EntryText(list[0]), EntryTexts(list[1..]), args, Argument(list[0].key, list[0].form.value), unquote);
      assert EntryTexts(list) == [EntryText(list[0])] + EntryTexts(list[1..]);
    }
  }

  /** Each text is a segment by itself, trimmed and not blank. */
  ghost predicate Stand(texts: seq<string>, sep: char) {
    Segments(texts, sep) && !AnyBlank(texts) && TrimAll(texts) == texts
  }

  lemma SegmentsOfParts(texts: seq<string>, sep: char)
    requires Segments(texts, sep) && texts != []
    ensures Single(START, texts[0], sep) && Segments(texts[1..], sep)
  {
    assert texts[0] in texts && forall r | r in texts[1..] :: r in texts;
  }

  lemma StandingSplit(texts: seq<string>, sep: char)
    requires IsSeparator(sep) && Stand(texts, sep) && texts != []
    ensures Split(Join(texts[0], texts[1..], sep), sep) == Ok(texts)
  {
    SegmentsOfParts(texts, sep);
    assert texts == [texts[0]] + texts[1..];
    SegmentsSplit(texts[0], texts[1..], sep);
  }

  lemma EntriesStand(list: seq<Entry>, unquote: string -> Option<string>)
    requires WritableList(list)
    ensures Stand(EntryTexts(list), ',')
  {
    var texts := EntryTexts(list);
    forall i | 0 <= i < |texts|
      ensures Single(START, texts[i], ',') && !Blank(texts[i]) && TrimSpace(texts[i]) == texts[i]
    {
      assert list[i] in list;
      EntryIsRead(list[i], unquote);
    }
  }

  lemma {:induction false} JoinIsBalanced(first: string, rest: seq<string>)
    requires Single(START, first, ',') && Segments(rest, ',')
    ensures Balanced(START, Join(first, rest, ','))
    decreases |rest|
  {
    SingleIsBalanced(START, first, ',');
    if rest != [] {
      var more := Join(rest[0], rest[1..], ',');
      assert rest[0] in rest;
      forall r | r in rest[1..] ensures r in rest { }
      JoinIsBalanced(rest[0], rest[1..]);
      assert ([','] + more)[1..] == more;
      BalancedAppend(START, first, [','] + more);
      assert first + ([','] + more) == first + [','] + more;
    }
  }

  lemma ListSplits(list: seq<Entry>, unquote: string -> Option<string>)
    requires WritableList(list) && list != []
    ensures Balanced(START, ListText(list)) && Split(ListText(list), ',') == Ok(EntryTexts(list))
  {
    var texts := EntryTexts(list);
    EntriesStand(list, unquote);
    assert texts[1..] == EntryTexts(list[1..]);
    SegmentsOfParts(texts, ',');
    JoinIsBalanced(texts[0], texts[1..]);
    StandingSplit(texts, ',');
  }

  lemma ListIsNotBlank(list: seq<Entry>, unquote: string -> Option<string>)
    requires WritableList(list) && list != []
    ensures !Blank(ListText(list))
  {
    assert list[0] in list;
    EntryIsRead(list[0], unquote);
    assert ListText(list)[0] == EntryText(list[0])[0];
    NotBlank(ListText(list));
  }

  lemma ListIsRead(list: seq<Entry>, unquote: string -> Option<string>)
    requires WritableList(list) && EntryKeysDiffer(list)
    ensures Balanced(START, ListText(list)) && ReadArgs(ListText(list), unquote) == Ok(Entered(list, map[]))
  {
    if list != [] {
      ListSplits(list, unquote);
      ListIsNotBlank(list, unquote);
      EntriesCollect(list, map[], unquote);
    }
  }

  lemma NothingBefore<T>(s: seq<T>)
    ensures [] + s == s
  {
  }

  // ---- Projections are read back ----

  lemma {:induction false} LastWord(w: string, current: string)
    requires forall c | c in w :: !Separates(c)
    requires w != "" || current != ""
    ensures Words(w, current) == [current + w]
    decreases |w|
  {
    if w == "" {
      assert current + w == current;
    } else {
      assert w[0] in w && !Separates(w[0]) && w == [w[0]] + w[1..];
      LastWord(w[1..], current + [w[0]]);
      assert current + [w[0]] + w[1..] == current + w;
    }
  }

  lemma {:induction false} JoinedWords(first: string, rest: seq<string>)
    requires Word(first) && forall w | w in rest :: Word(w)
    ensures Words(Join(first, rest, ','), "") == [first] + rest
    decreases |rest|
  {
    assert "" + first == first;
    if rest == [] {
      LastWord(first, "");
    } else {
      assert rest[0] in rest && rest == [rest[0]] + rest[1..];
      JoinedWords(rest[0], rest[1..]);
      WordIsRead(first, ',', Join(rest[0], rest[1..], ','), "");
    }
  }

  lemma {:induction false} ProjectAccepts(words: seq<string>, fields: seq<string>)
    requires FieldNames(words) && Distinct(fields + words)
    ensures Project(words, fields) == Ok(fields + words)
    decreases |words|
  {
    if words == [] {
      assert fields + words == fields;
    } else {
      assert fields + [words[0]] + words[1..] == fields + words;
      assert words[0] in words && (fields + words)[|fields|] == words[0];
      assert words[0] !in fields by {
        forall i | 0 <= i < |fields| ensures fields[i] != words[0] { assert (fields + words)[i] == fields[i]; }
      }
      ProjectAccepts(words[1..], fields + [words[0]]);
    }
  }

  /** Names joined by commas hold nothing but name characters and commas. */
  lemma {:induction false} JoinedNames(first: string, rest: seq<string>)
    requires FieldName(first) && FieldNames(rest)
    ensures var t := Join(first, rest, ',');
      t != "" && !IsSpace(t[0]) && !IsSpace(t[|t| - 1]) && forall c | c in t :: FieldChar(c) || c == ','
    decreases |rest|
  {
    assert first[|first| - 1] in first;
    if rest != [] {
      assert rest[0] in rest;
      JoinedNames(rest[0], rest[1..]);
      var t, more := Join(first, rest, ','), Join(rest[0], rest[1..], ',');
      assert t == first + [','] + more;
      assert t[|t| - 1] == more[|more| - 1] && t[0] == first[0];
    }
  }

  lemma {:induction false} InBraces(t: string)
    requires forall c | c in t :: Neutral(c)
    ensures Single(Scan(None, false, 0, 1), t + ['}'], ';')
  {
    if t == "" {
      assert t + ['}'] == ['}'] && ['}'][1..] == "";
    } else {
      assert t[0] in t && (t + ['}'])[1..] == t[1..] + ['}'];
      InBraces(t[1..]);
    }
  }

  lemma BracedText(body: string)
    requires forall c | c in body :: Neutral(c)
    ensures Single(START, ['{'] + (body + ['}']), ';')
  {
    InBraces(body);
    SingleCons(START, '{', body + ['}'], ';');
  }

  lemma BracesTrimmed(body: string)
    ensures TrimSpace(['{'] + (body + ['}'])) == ['{'] + (body + ['}'])
  {
    var text := ['{'] + (body + ['}']);
    assert text[0] == '{' && text[|text| - 1] == '}';
    Trimmed(text);
  }

  lemma ReadBraced(body: string, fields: seq<string>)
    requires TrimSpace(body) == body && body != "" && Project(Words(body, ""), []) == Ok(fields)
    ensures ReadFields(['{'] + (body + ['}'])) == Ok(fields)
  {
    var text := ['{'] + (body + ['}']);
    assert text[1..|text| - 1] == body;
  }

  lemma FieldsAreRead(fields: seq<string>)
    requires FieldNames(fields) && Distinct(fields)
    ensures ReadFields(FieldsText(fields)) == Ok(fields)
  {
    if fields != [] {
      var first, rest := fields[0], fields[1..];
      assert fields == [first] + rest;
      NamesOfParts(first, rest);
      JoinedNames(first, rest);
      Trimmed(Join(first, rest, ','));
      JoinedWords(first, rest);
      NothingBefore(fields);
      ProjectAccepts(fields, []);
      ReadBraced(Join(first, rest, ','), fields);
    }
  }

  lemma NamesOfParts(first: string, rest: seq<string>)
    requires FieldNames([first] + rest)
    ensures FieldName(first) && FieldNames(rest) && Word(first) && forall f | f in rest :: Word(f)
  {
    assert first in [first] + rest && forall f | f in rest :: f in [first] + rest;
  }

  lemma FieldsStand(fields: seq<string>)
    requires FieldNames(fields)
    ensures var text := FieldsText(fields);
      Single(START, text, ';') && TrimSpace(text) == text
  {
    if fields != [] {
      assert fields == [fields[0]] + fields[1..];
      NamesOfParts(fields[0], fields[1..]);
      JoinedNames(fields[0], fields[1..]);
      BracedText(Join(fields[0], fields[1..], ','));
      BracesTrimmed(Join(fields[0], fields[1..], ','));
    }
  }

  // ---- Queries are read back ----

  /** A trimmed text that stands alone in the query's scan and reads as the statement st. */
  ghost predicate Reads(text: string, st: Statement, unquote: string -> Option<string>) {
    Single(START, text, ';') && TrimSpace(text) == text && !Blank(text) && ReadStatement(text, unquote) == Ok(st)
  }

  /** A tail that the query's scan passes and that projects the fields. */
  ghost predicate Projects(tail: string, fields: seq<string>) {
    Single(START, tail, ';') && TrimSpace(tail) == tail && ReadFields(tail) == Ok(fields)
  }

  lemma PiecesRead(operation: string, inside: string, tail: string, args: map<string, string>, fields: seq<string>,
                   unquote: string -> Option<string>)
    requires ReadArgs(inside, unquote) == Ok(args) && TrimSpace(tail) == tail && ReadFields(tail) == Ok(fields)
    ensures ReadPieces(Pieces(operation, inside, tail), unquote) == Ok(Statement(operation, args, fields))
  {
  }

  lemma TailEnds(tail: string)
    requires TrimSpace(tail) == tail
    ensures tail == "" || !IsSpace(tail[|tail| - 1])
  {
    TrimLeftIsSuffix(tail);
    TrimRightIsPrefix(TrimLeft(tail));
  }

  /** A call is read from its arguments and its projection. */
  lemma CallReads(operation: string, inside: string, tail: string, args: map<string, string>, fields: seq<string>,
                  unquote: string -> Option<string>)
    requires SafeName(operation) && Balanced(START, inside) && ReadArgs(inside, unquote) == Ok(args)
      && Projects(tail, fields)
    ensures Reads(CallText(operation, inside, tail), Statement(operation, args, fields), unquote)
  {
    TailEnds(tail);
    PiecesRead(operation, inside, tail, args, fields, unquote);
    CallIsCleft(operation, inside, tail);
    CallIsSingle(operation, inside, tail);
    CallIsTrimmed(operation, inside, tail);
  }

  lemma DraftIsRead(d: Draft, unquote: string -> Option<string>)
    requires WritableDraft(d)
    ensures Reads(DraftText(d), Meaning(d), unquote)
  {
    ListIsRead(d.list, unquote);
    FieldsAreRead(d.fields);
    FieldsStand(d.fields);
    CallReads(d.operation, ListText(d.list), FieldsText(d.fields), Entered(d.list, map[]), d.fields, unquote);
  }

  function DraftTexts(drafts: seq<Draft>): (texts: seq<string>)
    ensures |texts| == |drafts|
  {
    seq(|drafts|, i requires 0 <= i < |drafts| => DraftText(drafts[i]))
  }

  function Meanings(drafts: seq<Draft>): (statements: seq<Statement>)
    ensures |statements| == |drafts|
  {
    seq(|drafts|, i requires 0 <= i < |drafts| => Meaning(drafts[i]))
  }

  function QueryOf(drafts: seq<Draft>): string
    requires drafts != []
  {
    Join(DraftText(drafts[0]), DraftTexts(drafts[1..]), ';')
  }

  ghost predicate WritableDrafts(drafts: seq<Draft>) {
    forall d | d in drafts :: WritableDraft(d)
  }

  ghost predicate AllRead(texts: seq<string>, statements: seq<Statement>, unquote: string -> Option<string>) {
    |texts| == |statements| && forall i | 0 <= i < |texts| :: Reads(texts[i], statements[i], unquote)
  }

  lemma ReadOneMore(text: string, rest: seq<string>, before: seq<Statement>, st: Statement,
                    unquote: string -> Option<string>)
    requires Reads(text, st, unquote)
    ensures ReadAll([text] + rest, before, unquote) == ReadAll(rest, before + [st], unquote)
  {
    assert ([text] + rest)[1..] == rest;
  }

  lemma Regroup<T>(a: seq<T>, x: T, b: seq<T>)
    ensures a + [x] + b == a + ([x] + b)
  {
  }

  lemma {:induction false} TextsAreRead(texts: seq<string>, statements: seq<Statement>, before: seq<Statement>,
                                        unquote: string -> Option<string>)
    requires AllRead(texts, statements, unquote)
    ensures ReadAll(texts, before, unquote) == Ok(before + statements)
    decreases |texts|
  {
    if texts == [] {
      assert before + statements == before;
    } else {
      var text, rest, st, more := texts[0], texts[1..], statements[0], statements[1..];
      assert texts == [text] + rest && Reads(text, st, unquote);
      assert AllRead(rest, more, unquote) by {
        forall i | 0 <= i < |rest| ensures Reads(rest[i], more[i], unquote) {
          assert Reads(texts[i + 1], statements[i + 1], unquote);
        }
      }
      ReadOneMore(text, rest, before, st, unquote);
      TextsAreRead(rest, more, before + [st], unquote);
      Regroup(before, st, more);
      assert statements == [st] + more;
    }
  }

  lemma TextsStand(texts: seq<string>, statements: seq<Statement>, unquote: string -> Option<string>)
    requires AllRead(texts, statements, unquote)
    ensures Stand(texts, ';')
  {
    forall i | 0 <= i < |texts|
      ensures Single(START, texts[i], ';') && TrimSpace(texts[i]) == texts[i] && !Blank(texts[i])
    {
      assert Reads(texts[i], statements[i], unquote);
    }
  }

  lemma DraftsRead(drafts: seq<Draft>, unquote: string -> Option<string>)
    requires WritableDrafts(drafts)
    ensures AllRead(DraftTexts(drafts), Meanings(drafts), unquote)
  {
    forall i | 0 <= i < |drafts| ensures Reads(DraftTexts(drafts)[i], Meanings(drafts)[i], unquote) {
      assert drafts[i] in drafts;
      DraftIsRead(drafts[i], unquote);
    }
  }

  /** A query of 1 to 16 statements, written out within the length bound, is read back as those statements. */
  lemma QueryRoundTrip(drafts: seq<Draft>, unquote: string -> Option<string>)
    requires 1 <= |drafts| <= MAX_STATEMENTS && WritableDrafts(drafts) && Utf8Length(QueryOf(drafts)) <= MAX_QUERY_BYTES
    ensures ReadQuery(QueryOf(drafts), unquote) == Ok(Meanings(drafts))
  {
    var texts, statements := DraftTexts(drafts), Meanings(drafts);
    DraftsRead(drafts, unquote);
    TextsStand(texts, statements, unquote);
    StandingSplit(texts, ';');
    TextsAreRead(texts, statements, [], unquote);
    NothingBefore(statements);
    QueryJoins(drafts);
    QueryIsNotBlank(drafts);
    ReadSplit(QueryOf(drafts), texts, statements, unquote);
  }

  lemma QueryJoins(drafts: seq<Draft>)
    requires drafts != []
    ensures QueryOf(drafts) == Join(DraftTexts(drafts)[0], DraftTexts(drafts)[1..], ';')
  {
    assert DraftTexts(drafts)[1..] == DraftTexts(drafts[1..]);
  }

  lemma QueryIsNotBlank(drafts: seq<Draft>)
    requires drafts != [] && WritableDrafts(drafts)
    ensures !Blank(QueryOf(drafts))
  {
    assert drafts[0] in drafts;
    assert QueryOf(drafts)[0] == DraftText(drafts[0])[0] == drafts[0].operation[0];
    NotBlank(QueryOf(drafts));
  }

  lemma ReadSplit(input: string, texts: seq<string>, statements: seq<Statement>, unquote: string -> Option<string>)
    requires !Blank(input) && Utf8Length(input) <= MAX_QUERY_BYTES && Split(input, ';') == Ok(texts)
    requires |texts| <= MAX_STATEMENTS && ReadAll(texts, [], unquote) == Ok(statements)
    ensures ReadQuery(input, unquote) == Ok(statements)
  {
  }

  lemma {:induction false} FourBytesAtMost(s: string)
    ensures Utf8Length(s) <= 4 * |s|
  {
    if s != "" {
      FourBytesAtMost(s[1..]);
    }
  }

  // ---- Projections of nothing ----

  predicate OnlySeparators(s: string) {
    forall c | c in s :: Separates(c)
  }

  lemma {:induction false} NoWords(s: string, current: string)
    ensures Words(s, current) == [] <==> OnlySeparators(s) && current == ""
    decreases |s|
  {
    if s != "" {
      assert s == [s[0]] + s[1..] && s[0] in s;
      assert OnlySeparators(s) <==> Separates(s[0]) && OnlySeparators(s[1..]);
      NoWords(s[1..], if Separates(s[0]) then "" else current + [s[0]]);
    }
  }

  lemma TrimmedSeparators(s: string)
    ensures OnlySeparators(TrimSpace(s)) <==> OnlySeparators(s)
  {
    TrimLeftIsSuffix(s);
    TrimRightIsPrefix(TrimLeft(s));
    assert forall c | c in TrimSpace(s) :: c in s;
    forall c | c in s && !Separates(c) ensures c in TrimSpace(s) {
      TrimLeftKeeps(s, c);
      TrimRightKeeps(TrimLeft(s), c);
    }
  }

  /** The tails that are accepted and project nothing: none at all, and braces around at least one comma
      and otherwise white space. */
  lemma EmptyProjectionsExactly(tail: string)
    ensures ReadFields(tail) == Ok([]) <==>
      || tail == ""
      || (|tail| >= 2 && tail[0] == '{' && tail[|tail| - 1] == '}'
          && !Blank(tail[1..|tail| - 1]) && OnlySeparators(tail[1..|tail| - 1]))
  {
    if |tail| >= 2 && tail[0] == '{' && tail[|tail| - 1] == '}' {
      var body := tail[1..|tail| - 1];
      TrimmedSeparators(body);
      NoWords(TrimSpace(body), "");
      ProjectKeeps(Words(TrimSpace(body), ""), []);
    }
  }

  lemma OneStatement(text: string, st: Statement, unquote: string -> Option<string>)
    requires Reads(text, st, unquote) && Utf8Length(text) <= MAX_QUERY_BYTES
    ensures ReadQuery(text, unquote) == Ok([st])
  {
    assert [st] == [] + [st] && [text][1..] == [] && [text] == [text] + [];
    TextsAreRead([text], [st], [], unquote);
    TextsStand([text], [st], unquote);
    StandingSplit([text], ';');
    ReadSplit(text, [text], [st], unquote);
  }

  lemma LoneComma(tail: string)
    requires tail == "{,}"
    ensures Projects(tail, [])
  {
    var body := tail[1..2];
    NotBlank(body);
    EmptyProjectionsExactly(tail);
    BracedText(body);
    BracesTrimmed(body);
    assert ['{'] + (body + ['}']) == tail;
  }

  lemma NoArguments(inside: string, unquote: string -> Option<string>)
    requires inside == ""
    ensures Balanced(START, inside) && ReadArgs(inside, unquote) == Ok(map[])
  {
  }

  /** So a projection of a comma alone is one. */
  lemma CommaProjectsNothing(text: string, unquote: string -> Option<string>)
    requires text == "list(){,}"
    ensures ReadQuery(text, unquote) == Ok([Statement("list", map[], [])])
  {
    var operation, inside, tail := text[..4], text[5..5], text[6..];
    assert operation == "list";
    LoneComma(tail);
    NoArguments(inside, unquote);
    assert CallText(operation, inside, tail) == text;
    CallReads(operation, inside, tail, map[], [], unquote);
    FourBytesAtMost(text);
    OneStatement(text, Statement(operation, map[], []), unquote);
  }

  // ---- Calls with one and two arguments ----

  lemma {:induction false} NoEscapeIsSteady(v: string)
    requires '\\' !in v
    ensures Steady(v, false)
  {
    if v != "" {
      assert v[0] in v && '\\' !in v[1..];
      NoEscapeIsSteady(v[1..]);
    }
  }

  lemma PlainQuoted(key: string, v: string)
    requires '\'' !in v && '\\' !in v
    ensures Writable(Quoted(v)) && EntryText(Entry(key, Quoted(v))) == key + "='" + v + "'"
  {
    NoEscapeIsSteady(v);
    SteadySurvives(v);
    NothingToEscape(v);
  }

  lemma OneEntry(e: Entry)
    ensures ListText([e]) == EntryText(e) && Entered([e], map[]) == map[e.key := e.form.value]
  {
    assert [e][1..] == [];
  }

  lemma TwoEntries(a: Entry, b: Entry)
    ensures ListText([a, b]) == EntryText(a) + "," + EntryText(b)
    ensures Entered([a, b], map[]) == map[a.key := a.form.value, b.key := b.form.value]
  {
    assert [a, b][1..] == [b] && [b][1..] == [];
    assert EntryTexts([a, b][1..]) == [EntryText(b)];
    assert Join(EntryText(b), [EntryText(b)][1..], ',') == EntryText(b);
    var args := map[a.key := a.form.value];
    assert Entered([b], args) == Entered([], args[b.key := b.form.value]) == args[b.key := b.form.value];
  }

  /** A short call without a projection, written out, is one statement. */
  lemma CallIsRead(d: Draft, text: string, unquote: string -> Option<string>)
    requires WritableDraft(d) && d.fields == [] && text == d.operation + "(" + ListText(d.list) + ")" && |text| <= 1024
    ensures ReadQuery(text, unquote) == Ok([Meaning(d)])
  {
    assert DraftText(d) == text;
    DraftIsRead(d, unquote);
    FourBytesAtMost(text);
    OneStatement(text, Meaning(d), unquote);
  }

  lemma OneArgumentCall(operation: string, key: string, v: string, text: string, unquote: string -> Option<string>)
    requires SafeName(operation) && FieldName(key) && '\'' !in v && '\\' !in v
    requires text == operation + "(" + (key + "='" + v + "'") + ")" && |text| <= 1024
    ensures ReadQuery(text, unquote) == Ok([Statement(operation, map[key := v], [])])
  {
    var e := Entry(key, Quoted(v));
    PlainQuoted(key, v);
    OneEntry(e);
    CallIsRead(Draft(operation, [e], []), text, unquote);
  }

  lemma TwoArgumentsCall(operation: string, k: string, v: string, l: string, w: string, text: string,
                         unquote: string -> Option<string>)
    requires SafeName(operation) && FieldName(k) && FieldName(l) && k != l && Writable(Bare(v)) && Writable(Bare(w))
    requires text == operation + "(" + (k + "=" + v + "," + (l + "=" + w)) + ")" && |text| <= 1024
    ensures ReadQuery(text, unquote) == Ok([Statement(operation, map[k := v, l := w], [])])
  {
    var a, b := Entry(k, Bare(v)), Entry(l, Bare(w));
    TwoEntries(a, b);
    CallIsRead(Draft(operation, [a, b], []), text, unquote);
  }

  /** The shortest arguments: keys of one letter and values of one digit. */
  lemma ShortArgument(k: string, v: string)
    requires |k| == 1 && 'a' <= k[0] <= 'z' && |v| == 1 && '0' <= v[0] <= '9'
    ensures FieldName(k) && Writable(Bare(v))
  {
  }
}
