/**
  The two scanners of internal/browserfacade/parser.go: splitTopLevel, which cuts at separators
  outside quotes, parentheses and braces, and matchingParen, which looks for the closing
  parenthesis. Both track quotes in the same way.
 */
module QuerySplit {
  import opened Common
  import opened TextOps

  datatype QueryError =
    | LengthError | Unbalanced | EmptyPart | TooManyStatements | NoParentheses | BadOperation | Unclosed
    | BadSuffix | EmptyProjection | BadField | NotKeyValue | DuplicateArgument
    | EmptyValue | UnterminatedQuote | BadQuote | ReservedPunctuation

  datatype Scan = Scan(quote: Option<char>, escaped: bool, paren: int, braces: int)

  const START := Scan(None, false, 0, 0)

  predicate IsSeparator(c: char) {
    c == ';' || c == ','
  }

  function Step(s: Scan, c: char): Scan {
    if s.quote.Some? then
      if s.escaped then s.(escaped := false)
      else if c == '\\' then s.(escaped := true)
      else if c == s.quote.value then s.(quote := None)
      else s
    else if c == '\'' || c == '"' then s.(quote := Some(c))
    else if c == '(' then s.(paren := s.paren + 1)
    else if c == ')' then s.(paren := s.paren - 1)
    else if c == '{' then s.(braces := s.braces + 1)
    else if c == '}' then s.(braces := s.braces - 1)
    else s
  }

  function After(s: Scan, t: string): Scan
    decreases |t|
  {
    if t == "" then s else After(Step(s, t[0]), t[1..])
  }

  predicate NonNegative(s: Scan) {
    s.paren >= 0 && s.braces >= 0
  }

  predicate AtTop(s: Scan) {
    s.quote.None? && s.paren == 0 && s.braces == 0
  }

  /** Outside quotes nothing is ever escaped, and only the two quote marks quote. */
  predicate Sane(s: Scan) {
    if s.quote.None? then !s.escaped else s.quote.value == '\'' || s.quote.value == '"'
  }

  predicate CutsHere(s: Scan, c: char, sep: char) {
    s.quote.None? && c == sep && AtTop(Step(s, c))
  }

  // ---- splitTopLevel ----

  /** The raw segments cut off before the input ended or went out of balance. */
  datatype Cuts = Cuts(raw: seq<string>, balanced: bool)

  function Cut(s: Scan, t: string, current: string, sep: char): Cuts
    decreases |t|
  {
    if t == "" then if AtTop(s) then Cuts([current], true) else Cuts([], false)
    else
      var s' := Step(s, t[0]);
      if !NonNegative(s') then Cuts([], false)
      else if CutsHere(s, t[0], sep) then
        var rest := Cut(s', t[1..], "", sep);
        Cuts([current] + rest.raw, rest.balanced)
      else Cut(s', t[1..], current + [t[0]], sep)
  }

  predicate Blank(t: string) {
    TrimSpace(t) == ""
  }

  predicate AnyBlank(raw: seq<string>) {
    exists r :: r in raw && Blank(r)
  }

  function TrimAll(raw: seq<string>): seq<string> {
    seq(|raw|, i requires 0 <= i < |raw| => TrimSpace(raw[i]))
  }

  /** A blank segment is reported as soon as it is cut off, before any later imbalance. */
  function Finish(c: Cuts): Result<seq<string>, QueryError> {
    if AnyBlank(c.raw) then Err(EmptyPart) else if !c.balanced then Err(Unbalanced) else Ok(TrimAll(c.raw))
  }

  function Split(input: string, sep: char): Result<seq<string>, QueryError> {
    Finish(Cut(START, input, "", sep))
  }

  /** From state s, t never goes below zero, meets no separator at top level and ends at top level. */
  predicate Single(s: Scan, t: string, sep: char)
    decreases |t|
  {
    if t == "" then AtTop(s)
    else NonNegative(Step(s, t[0])) && !CutsHere(s, t[0], sep) && Single(Step(s, t[0]), t[1..], sep)
  }

  function Join(first: string, rest: seq<string>, sep: char): string
    decreases |rest|
  {
    if rest == [] then first else first + [sep] + Join(rest[0], rest[1..], sep)
  }

  ghost predicate Segments(raw: seq<string>, sep: char) {
    forall r | r in raw :: Single(START, r, sep)
  }

  lemma TopIsStart(s: Scan)
    requires AtTop(s) && Sane(s)
    ensures s == START
  {
  }

  /** Where a cut is made, the scan is at top level before and after it. */
  lemma CutAtStart(s: Scan, sep: char)
    requires Sane(s) && IsSeparator(sep) && CutsHere(s, sep, sep)
    ensures s == START && Step(s, sep) == START
  {
  }

  /** t falls into first and rest, and that is what the scan from s makes of it. */
  ghost predicate FallsInto(s: Scan, t: string, current: string, sep: char, first: string, rest: seq<string>) {
    && t == Join(first, rest, sep) && Single(s, first, sep) && Segments(rest, sep)
    && Cut(s, t, current, sep).raw == [current + first] + rest
  }

  /** A balanced input is its segments joined by the separator, whatever led up to it. */
  lemma {:induction false} CutSound(s: Scan, t: string, current: string, sep: char)
    returns (first: string, rest: seq<string>)
    requires Sane(s) && IsSeparator(sep) && Cut(s, t, current, sep).balanced
    ensures FallsInto(s, t, current, sep, first, rest)
    decreases |t|
  {
    first, rest := "", [];
    if t == "" {
      assert current + "" == current;
    } else {
      var c, t' := t[0], t[1..];
      assert t == [c] + t';
      CutUnfolds(s, c, t', current, sep);
      if CutsHere(s, c, sep) {
        CutAtStart(s, sep);
        var f, r := CutSound(START, t', "", sep);
        rest := [f] + r;
        FallsHere(t', current, sep, f, r);
      } else {
        var f, r := CutSound(Step(s, c), t', current + [c], sep);
        first, rest := [c] + f, r;
        FallsLater(s, c, t', current, sep, f, r);
      }
    }
  }

  lemma JoinBehind(f: string, r: seq<string>, sep: char)
    ensures Join("", [f] + r, sep) == [sep] + Join(f, r, sep)
  {
    assert ([f] + r)[1..] == r && "" + [sep] == [sep];
  }

  lemma FallsHere(t: string, current: string, sep: char, f: string, r: seq<string>)
    requires IsSeparator(sep) && CutsHere(START, sep, sep) && Step(START, sep) == START
    requires FallsInto(START, t, "", sep, f, r) && Cut(START, [sep] + t, current, sep).balanced
    ensures FallsInto(START, [sep] + t, current, sep, "", [f] + r)
  {
    CutUnfolds(START, sep, t, current, sep);
    SegmentsCons(f, r, sep);
    JoinBehind(f, r, sep);
    assert "" + f == f && current + "" == current;
  }

  lemma FallsLater(s: Scan, c: char, t: string, current: string, sep: char, f: string, r: seq<string>)
    requires Sane(s) && !CutsHere(s, c, sep) && Cut(s, [c] + t, current, sep).balanced
    requires FallsInto(Step(s, c), t, current + [c], sep, f, r)
    ensures FallsInto(s, [c] + t, current, sep, [c] + f, r)
  {
    CutUnfolds(s, c, t, current, sep);
    SingleCons(s, c, f, sep);
    JoinFirst([c], f, r, sep);
    assert current + ([c] + f) == current + [c] + f;
  }

  lemma CutUnfolds(s: Scan, c: char, t: string, current: string, sep: char)
    requires Sane(s) && Cut(s, [c] + t, current, sep).balanced
    ensures Sane(Step(s, c)) && NonNegative(Step(s, c))
    ensures Cut(s, [c] + t, current, sep) ==
      if CutsHere(s, c, sep) then Extend([current], Cut(Step(s, c), t, "", sep))
      else Cut(Step(s, c), t, current + [c], sep)
  {
    assert ([c] + t)[1..] == t;
  }

  lemma SingleCons(s: Scan, c: char, f: string, sep: char)
    requires NonNegative(Step(s, c)) && !CutsHere(s, c, sep) && Single(Step(s, c), f, sep)
    ensures Single(s, [c] + f, sep)
  {
    assert ([c] + f)[1..] == f;
  }

  lemma SegmentsCons(f: string, r: seq<string>, sep: char)
    requires Single(START, f, sep) && Segments(r, sep)
    ensures Segments([f] + r, sep)
  {
  }

  lemma JoinFirst(a: string, b: string, rest: seq<string>, sep: char)
    ensures Join(a + b, rest, sep) == a + Join(b, rest, sep)
  {
    if rest != [] {
      assert (a + b) + [sep] + Join(rest[0], rest[1..], sep) == a + (b + [sep] + Join(rest[0], rest[1..], sep));
    }
  }

  /** Any segments joined by the separator are cut back into exactly those segments. */
  lemma {:induction false} CutComplete(s: Scan, current: string, first: string, rest: seq<string>, sep: char)
    requires Sane(s) && IsSeparator(sep)
    requires Single(s, first, sep) && Segments(rest, sep)
    ensures Cut(s, Join(first, rest, sep), current, sep) == Cuts([current + first] + rest, true)
    decreases |rest|, |first|
  {
    var t := Join(first, rest, sep);
    if first != "" {
      var c, f := first[0], first[1..];
      assert first == [c] + f;
      JoinFirst([c], f, rest, sep);
      assert t[0] == c && t[1..] == Join(f, rest, sep);
      assert current + [c] + f == current + first;
      CutComplete(Step(s, c), current + [c], f, rest, sep);
    } else {
      assert current + "" == current;
      if rest != [] {
        var r, more := rest[0], rest[1..];
        TopIsStart(s);
        assert t[0] == sep && t[1..] == Join(r, more, sep);
        assert "" + r == r;
        assert r in rest;
        forall x | x in more ensures x in rest { }
        CutComplete(START, "", r, more, sep);
        assert [current] + ([r] + more) == [current + first] + rest;
      }
    }
  }

  /** The split is accepted exactly when the input is a list of nonblank segments joined by the
      separator, and the parts are then those segments trimmed. */
  lemma SplitIsSegments(input: string, sep: char) returns (first: string, rest: seq<string>)
    requires IsSeparator(sep) && Split(input, sep).Ok?
    ensures input == Join(first, rest, sep) && Single(START, first, sep) && Segments(rest, sep)
    ensures !AnyBlank([first] + rest) && Split(input, sep).value == TrimAll([first] + rest)
  {
    first, rest := CutSound(START, input, "", sep);
    assert "" + first == first;
  }

  /** Splitting undoes joining. */
  lemma SegmentsSplit(first: string, rest: seq<string>, sep: char)
    requires IsSeparator(sep) && Single(START, first, sep) && Segments(rest, sep)
    ensures Split(Join(first, rest, sep), sep) ==
      if AnyBlank([first] + rest) then Err(EmptyPart) else Ok(TrimAll([first] + rest))
  {
    CutComplete(START, "", first, rest, sep);
    assert "" + first == first;
  }

  lemma SpaceStep(s: Scan, c: char)
    requires Sane(s) && IsSpace(c)
    ensures s.quote.None? ==> Step(s, c) == s
    ensures s.quote.Some? ==> Step(s, c).quote.Some?
  {
  }

  lemma {:induction false} SingleLeft(t: string, sep: char)
    requires Single(START, t, sep)
    ensures Single(START, TrimLeft(t), sep)
    decreases |t|
  {
    if t != "" && IsSpace(t[0]) {
      SpaceStep(START, t[0]);
      SingleLeft(t[1..], sep);
    }
  }

  lemma {:induction false} SingleFront(s: Scan, t: string, sep: char)
    requires t != "" && IsSpace(t[|t| - 1]) && Single(s, t, sep) && Sane(s)
    ensures Single(s, t[..|t| - 1], sep)
    decreases |t|
  {
    var front := t[..|t| - 1];
    if front != "" {
      assert t[1..][..|t| - 2] == front[1..];
      SingleFront(Step(s, t[0]), t[1..], sep);
    } else {
      SpaceStep(s, t[0]);
      assert t[1..] == "";
    }
  }

  lemma {:induction false} SingleRight(t: string, sep: char)
    requires Single(START, t, sep)
    ensures Single(START, TrimRight(t), sep)
    decreases |t|
  {
    if t != "" && IsSpace(t[|t| - 1]) {
      SingleFront(START, t, sep);
      SingleRight(t[..|t| - 1], sep);
    }
  }

  lemma SingleTrimmed(t: string, sep: char)
    requires Single(START, t, sep)
    ensures Single(START, TrimSpace(t), sep)
  {
    SingleLeft(t, sep);
    SingleRight(TrimLeft(t), sep);
  }

  /** Each part is one segment by itself, and splitting it again gives back that part alone. */
  lemma PartsResplitAlone(input: string, sep: char, part: string)
    requires IsSeparator(sep) && Split(input, sep).Ok? && part in Split(input, sep).value
    ensures Single(START, part, sep) && part != "" && TrimSpace(part) == part
    ensures Split(part, sep) == Ok([part])
  {
    var first, rest := SplitIsSegments(input, sep);
    var raw := RawOf([first] + rest, part);
    assert !Blank(raw);
    TrimSpaceIdempotent(raw);
    SingleTrimmed(raw, sep);
    AloneSplits(part, sep);
  }

  lemma AloneSplits(part: string, sep: char)
    requires IsSeparator(sep) && Single(START, part, sep) && part != "" && TrimSpace(part) == part
    ensures Split(part, sep) == Ok([part])
  {
    SegmentsSplit(part, [], sep);
    assert [part] + [] == [part];
    assert TrimAll([part]) == [part];
  }

  lemma RawOf(raw: seq<string>, part: string) returns (r: string)
    requires part in TrimAll(raw)
    ensures r in raw && TrimSpace(r) == part
  {
    var i :| 0 <= i < |TrimAll(raw)| && TrimAll(raw)[i] == part;
    r := raw[i];
  }

  /** One turn of the scanner's switch. */
  method Advance(s: Scan, c: char) returns (s': Scan)
    ensures s' == Step(s, c)
  {
    s' := s;
    if s.quote.Some? {
      if s.escaped {
        s' := s.(escaped := false);
      } else if c == '\\' {
        s' := s.(escaped := true);
      } else if c == s.quote.value {
        s' := s.(quote := None);
      }
      return;
    }
    if c == '\'' || c == '"' {
      s' := s.(quote := Some(c));
      return;
    }
    match c {
      case '(' => s' := s.(paren := s.paren + 1);
      case ')' => s' := s.(paren := s.paren - 1);
      case '{' => s' := s.(braces := s.braces + 1);
      case '}' => s' := s.(braces := s.braces - 1);
      case _ =>
    }
  }

  method SplitTopLevel(input: string, sep: char) returns (r: Result<seq<string>, QueryError>)
    requires IsSeparator(sep)
    ensures r == Split(input, sep)
  {
    var parts: seq<string> := [];
    ghost var raw: seq<string> := [];
    var start := 0;
    var s := START;
    Begin(input, sep);
    for i := 0 to |input|
      invariant 0 <= start <= i && NonNegative(s)
      invariant Remains(input, sep, raw, parts, s, start, i)
    {
      var c := input[i];
      var unquoted := s.quote.None?;
      Turn(input, sep, raw, parts, s, start, i);
      StepKinds(s, c, sep);
      s := Advance(s, c);
      if unquoted && (s.paren < 0 || s.braces < 0) {
        return Err(Unbalanced);
      }
      if unquoted && c == sep && s.paren == 0 && s.braces == 0 {
        var part := TrimSpace(input[start..i]);
        if part == "" {
          return Err(EmptyPart);
        }
        parts := parts + [part];
        raw := raw + [input[start..i]];
        start := i + 1;
      }
    }
    LastTurn(input, sep, raw, parts, s, start);
    if s.quote.Some? || s.paren != 0 || s.braces != 0 {
      return Err(Unbalanced);
    }
    var last := TrimSpace(input[start..]);
    if last == "" {
      return Err(EmptyPart);
    }
    return Ok(parts + [last]);
  }

  /** The whole cut is the segments cut so far, extended by what the rest of the input will yield. */
  ghost predicate Remains(input: string, sep: char, raw: seq<string>, parts: seq<string>, s: Scan, start: nat, i: nat)
    requires start <= i <= |input|
  {
    Tracks(parts, raw) && Cut(START, input, "", sep) == Extend(raw, Cut(s, input[i..], input[start..i], sep))
  }

  lemma Begin(input: string, sep: char)
    ensures Remains(input, sep, [], [], START, 0, 0)
  {
    assert input[0..] == input;
  }

  lemma Turn(input: string, sep: char, raw: seq<string>, parts: seq<string>, s: Scan, start: nat, i: nat)
    requires start <= i < |input| && Remains(input, sep, raw, parts, s, start, i)
    ensures var s', current := Step(s, input[i]), input[start..i];
      if !NonNegative(s') then Split(input, sep) == Err(Unbalanced)
      else if CutsHere(s, input[i], sep) then
        if Blank(current) then Split(input, sep) == Err(EmptyPart)
        else Remains(input, sep, raw + [current], parts + [TrimSpace(current)], s', i + 1, i + 1)
      else Remains(input, sep, raw, parts, s', start, i + 1)
  {
    var s', current := Step(s, input[i]), input[start..i];
    CutStep(s, input, i, current, sep);
    SliceGrows(input, start, i);
    if !NonNegative(s') {
      FinishUnbalanced(raw);
    } else if CutsHere(s, input[i], sep) {
      FinishCut(raw, current, Cut(s', input[i + 1..], "", sep));
      if !Blank(current) {
        TracksOneMore(parts, raw, current);
      }
    }
  }

  lemma LastTurn(input: string, sep: char, raw: seq<string>, parts: seq<string>, s: Scan, start: nat)
    requires start <= |input| && Remains(input, sep, raw, parts, s, start, |input|)
    ensures Split(input, sep) ==
      if !AtTop(s) then Err(Unbalanced)
      else if Blank(input[start..]) then Err(EmptyPart)
      else Ok(parts + [TrimSpace(input[start..])])
  {
    assert input[|input|..] == "" && input[start..] == input[start..|input|];
    FinishUnbalanced(raw);
    FinishLast(parts, raw, input[start..]);
  }

  /** Inside quotes nothing is counted and nothing is cut. */
  lemma StepKinds(s: Scan, c: char, sep: char)
    requires NonNegative(s) && IsSeparator(sep)
    ensures s.quote.Some? ==> NonNegative(Step(s, c)) && !CutsHere(s, c, sep)
    ensures s.quote.None? ==> (CutsHere(s, c, sep) <==> c == sep && Step(s, c).paren == 0 && Step(s, c).braces == 0)
  {
  }

  ghost predicate Tracks(parts: seq<string>, raw: seq<string>) {
    parts == TrimAll(raw) && !AnyBlank(raw)
  }

  lemma SliceGrows(input: string, start: nat, i: nat)
    requires start <= i < |input|
    ensures input[start..i + 1] == input[start..i] + [input[i]] && input[i + 1..i + 1] == ""
  {
  }

  lemma TracksOneMore(parts: seq<string>, raw: seq<string>, x: string)
    requires Tracks(parts, raw) && !Blank(x)
    ensures Tracks(parts + [TrimSpace(x)], raw + [x])
  {
    OneMorePart(raw, x);
  }

  lemma FinishLast(parts: seq<string>, raw: seq<string>, x: string)
    requires Tracks(parts, raw)
    ensures Finish(Extend(raw, Cuts([x], true))) == if Blank(x) then Err(EmptyPart) else Ok(parts + [TrimSpace(x)])
  {
    OneMorePart(raw, x);
  }

  lemma FinishUnbalanced(raw: seq<string>)
    requires !AnyBlank(raw)
    ensures Finish(Extend(raw, Cuts([], false))) == Err(Unbalanced)
  {
    assert raw + [] == raw;
  }

  lemma FinishCut(raw: seq<string>, current: string, rest: Cuts)
    requires !AnyBlank(raw)
    ensures Extend(raw, Extend([current], rest)) == Extend(raw + [current], rest)
    ensures Blank(current) ==> Finish(Extend(raw, Extend([current], rest))) == Err(EmptyPart)
  {
    assert raw + ([current] + rest.raw) == raw + [current] + rest.raw;
    assert current in raw + [current] + rest.raw;
  }

  function Extend(raw: seq<string>, c: Cuts): Cuts {
    Cuts(raw + c.raw, c.balanced)
  }

  lemma CutStep(s: Scan, input: string, i: nat, current: string, sep: char)
    requires i < |input|
    ensures Cut(s, input[i..], current, sep) ==
      var s' := Step(s, input[i]);
      if !NonNegative(s') then Cuts([], false)
      else if CutsHere(s, input[i], sep) then Extend([current], Cut(s', input[i + 1..], "", sep))
      else Cut(s', input[i + 1..], current + [input[i]], sep)
  {
    assert input[i..][1..] == input[i + 1..];
  }

  lemma OneMorePart(raw: seq<string>, x: string)
    ensures TrimAll(raw + [x]) == TrimAll(raw) + [TrimSpace(x)]
    ensures AnyBlank(raw + [x]) <==> AnyBlank(raw) || Blank(x)
  {
    if AnyBlank(raw) {
      var r :| r in raw && Blank(r);
      assert r in raw + [x];
    }
    if Blank(x) {
      assert x in raw + [x];
    }
  }

  // ---- matchingParen ----

  /** How far into t the first parenthesis lies, outside quotes, that takes the depth back to zero. */
  function Close(s: Scan, t: string): (i: Option<nat>)
    ensures i.Some? ==> i.value < |t|
    decreases |t|
  {
    if t == "" then None
    else if s.quote.None? && t[0] == ')' && s.paren - 1 == 0 then Some(0)
    else
      var further := Close(Step(s, t[0]), t[1..]);
      if further.Some? then Some(further.value + 1) else None
  }

  function Offset(n: nat, i: Option<nat>): Option<nat> {
    if i.Some? then Some(n + i.value) else None
  }

  /** The position of the parenthesis that closes the one at open. */
  function CloseAt(input: string, open: nat): (i: Option<nat>)
    requires open < |input|
    ensures i.Some? ==> open <= i.value < |input|
    ensures i.Some? && input[open] == '(' ==> open < i.value
  {
    Offset(open, Close(START, input[open..]))
  }

  method MatchingParen(input: string, open: nat) returns (close: Option<nat>)
    requires open < |input|
    ensures close == CloseAt(input, open)
  {
    var quote: Option<char> := None;
    var escaped, depth := false, 0;
    ghost var s := START;
    var i := open;
    while i < |input|
      invariant open <= i <= |input|
      invariant s.quote == quote && s.escaped == escaped && s.paren == depth
      invariant Close(START, input[open..]) == Offset(i - open, Close(s, input[i..]))
    {
      var c := input[i];
      assert input[i..][1..] == input[i + 1..];
      s := Step(s, c);
      if quote.Some? {
        if escaped {
          escaped := false;
        } else if c == '\\' {
          escaped := true;
        } else if c == quote.value {
          quote := None;
        }
      } else if c == '\'' || c == '"' {
        quote := Some(c);
      } else if c == '(' {
        depth := depth + 1;
      } else if c == ')' {
        depth := depth - 1;
        if depth == 0 {
          return Some(i);
        }
      }
      i := i + 1;
    }
    return None;
  }

  lemma {:induction false} AfterAppend(s: Scan, a: string, b: string)
    ensures After(s, a + b) == After(After(s, a), b)
    decreases |a|
  {
    if a == "" {
      assert a + b == b;
    } else {
      assert (a + b)[1..] == a[1..] + b;
      AfterAppend(Step(s, a[0]), a[1..], b);
    }
  }

  lemma {:induction false} SingleEndsAtTop(s: Scan, t: string, sep: char)
    requires Single(s, t, sep)
    ensures AtTop(After(s, t))
    decreases |t|
  {
    if t != "" {
      SingleEndsAtTop(Step(s, t[0]), t[1..], sep);
    }
  }

  /** A depth that ends at zero passes through zero: one step changes it by at most one. */
  lemma {:induction false} CloseFound(s: Scan, t: string)
    requires s.paren > 0 && After(s, t).paren == 0
    ensures Close(s, t).Some?
    decreases |t|
  {
    if !(s.quote.None? && t[0] == ')' && s.paren - 1 == 0) {
      CloseFound(Step(s, t[0]), t[1..]);
    }
  }

  /** Behind a harmless prefix, a parenthesis opened in one segment is closed in that segment. */
  lemma SegmentCloses(part: string, open: nat, sep: char)
    requires Single(START, part, sep) && open < |part| && part[open] == '('
    requires After(START, part[..open]) == START
    ensures CloseAt(part, open).Some?
  {
    assert part == part[..open] + part[open..];
    AfterAppend(START, part[..open], part[open..]);
    SingleEndsAtTop(START, part, sep);
    var t := part[open..];
    CloseFound(Step(START, '('), t[1..]);
  }
}
