/**
  Statements of internal/browserfacade/parser.go. `unquote` stands for Go's strconv.Unquote, which
  decides double-quoted values.
 */
module QueryParse {
  import opened Common
  import opened TextOps
  import opened QuerySplit

  datatype Statement = Statement(operation: string, args: map<string, string>, fields: seq<string>)

  const MAX_STATEMENTS: nat := 16
  const MAX_QUERY_BYTES: nat := 16384

  function Utf8Length(s: string): nat {
    if s == "" then 0
    else
      var c := s[0] as int;
      (if c < 0x80 then 1 else if c < 0x800 then 2 else if c < 0x10000 then 3 else 4) + Utf8Length(s[1..])
  }

  predicate SafeChar(c: char) {
    'a' <= c <= 'z' || '0' <= c <= '9' || c == '-'
  }

  /** ^[a-z][a-z0-9-]{0,47}$ */
  predicate SafeName(s: string) {
    1 <= |s| <= 48 && 'a' <= s[0] <= 'z' && forall c | c in s :: SafeChar(c)
  }

  predicate FieldChar(c: char) {
    'a' <= c <= 'z' || 'A' <= c <= 'Z' || '0' <= c <= '9' || c == '_'
  }

  predicate FieldName(s: string) {
    1 <= |s| <= 48 && 'a' <= s[0] <= 'z' && forall c | c in s :: FieldChar(c)
  }

  function ReplaceEscapedQuote(s: string): string {
    if |s| >= 2 && s[0] == '\\' && s[1] == '\'' then ['\''] + ReplaceEscapedQuote(s[2..])
    else if s == "" then ""
    else [s[0]] + ReplaceEscapedQuote(s[1..])
  }

  function ParseValue(raw: string, unquote: string -> Option<string>): Result<string, QueryError> {
    if raw == "" then Err(EmptyValue)
    else if raw[0] == '\'' then
      if |raw| < 2 || raw[|raw| - 1] != '\'' then Err(UnterminatedQuote)
      else Ok(ReplaceEscapedQuote(raw[1..|raw| - 1]))
    else if raw[0] == '"' then
      var value := unquote(raw);
      if value.None? then Err(BadQuote) else Ok(value.value)
    else if HasReserved(raw) then Err(ReservedPunctuation)
    else Ok(raw)
  }

  predicate HasReserved(s: string) {
    exists c :: c in s && c in "{}();,"
  }

  datatype Argument = Argument(key: string, value: string)

  /** The key of a `key=value` part, when it has a proper one. */
  function ArgumentKey(part: string): (key: Option<string>)
    ensures key.Some? ==> FieldName(key.value)
  {
    var cut := IndexOf(part, '=');
    var key := TrimSpace(part[..cut]);
    if cut == |part| || !FieldName(key) then None else Some(key)
  }

  function ArgumentValue(part: string, unquote: string -> Option<string>): Result<string, QueryError> {
    var cut := IndexOf(part, '=');
    ParseValue(if cut == |part| then "" else TrimSpace(part[cut + 1..]), unquote)
  }

  // ---- What parseArgs, parseStatement and Parse compute ----

  /** A key is checked against the earlier ones before its value is parsed. */
  function Collect(parts: seq<string>, args: map<string, string>, unquote: string -> Option<string>)
    : Result<map<string, string>, QueryError>
    decreases |parts|
  {
    if parts == [] then Ok(args)
    else
      var key, value := ArgumentKey(parts[0]), ArgumentValue(parts[0], unquote);
      if key.None? then Err(NotKeyValue)
      else if key.value in args then Err(DuplicateArgument)
      else if value.Err? then Err(value.error)
      else Collect(parts[1..], args[key.value := value.value], unquote)
  }

  function ReadArgs(input: string, unquote: string -> Option<string>): Result<map<string, string>, QueryError> {
    if Blank(input) then Ok(map[])
    else
      var parts := Split(input, ',');
      if parts.Err? then Err(parts.error) else Collect(parts.value, map[], unquote)
  }

  function Project(words: seq<string>, fields: seq<string>): Result<seq<string>, QueryError>
    decreases |words|
  {
    if words == [] then Ok(fields)
    else if !FieldName(words[0]) || words[0] in fields then Err(BadField)
    else Project(words[1..], fields + [words[0]])
  }

  /** A projection of commas alone names no field and is accepted. */
  function ReadFields(tail: string): Result<seq<string>, QueryError> {
    if tail == "" then Ok([])
    else if |tail| < 2 || tail[0] != '{' || tail[|tail| - 1] != '}' then Err(BadSuffix)
    else if Blank(tail[1..|tail| - 1]) then Err(EmptyProjection)
    else Project(Words(TrimSpace(tail[1..|tail| - 1]), ""), [])
  }

  /** A statement's operation name, the text inside its parentheses and the text behind them. */
  datatype Pieces = Pieces(name: string, inside: string, tail: string)

  function Cleave(text: string): Result<Pieces, QueryError> {
    var open := IndexOf(text, '(');
    if open < 1 || open == |text| then Err(NoParentheses)
    else CleaveFrom(text, open, CloseAt(text, open), TrimSpace(text[..open]))
  }

  function CleaveFrom(text: string, open: nat, close: Option<nat>, name: string): Result<Pieces, QueryError>
    requires open < |text| && (close.Some? ==> open < close.value < |text|)
  {
    if !SafeName(name) then Err(BadOperation)
    else if close.None? then Err(Unclosed)
    else Ok(Pieces(name, text[open + 1..close.value], text[close.value + 1..]))
  }

  function ReadPieces(p: Pieces, unquote: string -> Option<string>): Result<Statement, QueryError> {
    var args := ReadArgs(p.inside, unquote);
    if args.Err? then Err(args.error)
    else
      var fields := ReadFields(TrimSpace(p.tail));
      if fields.Err? then Err(fields.error) else Ok(Statement(p.name, args.value, fields.value))
  }

  /** text is trimmed already. */
  function ReadStatement(text: string, unquote: string -> Option<string>): Result<Statement, QueryError> {
    var pieces := Cleave(text);
    if pieces.Err? then Err(pieces.error) else ReadPieces(pieces.value, unquote)
  }

  function ReadAll(parts: seq<string>, statements: seq<Statement>, unquote: string -> Option<string>)
    : Result<seq<Statement>, QueryError>
    decreases |parts|
  {
    if parts == [] then Ok(statements)
    else
      var st := ReadStatement(TrimSpace(parts[0]), unquote);
      if st.Err? then Err(st.error) else ReadAll(parts[1..], statements + [st.value], unquote)
  }

  function ReadQuery(input: string, unquote: string -> Option<string>): Result<seq<Statement>, QueryError> {
    if Blank(input) || Utf8Length(input) > MAX_QUERY_BYTES then Err(LengthError)
    else
      var parts := Split(input, ';');
      if parts.Err? then Err(parts.error)
      else if |parts.value| > MAX_STATEMENTS then Err(TooManyStatements)
      else ReadAll(parts.value, [], unquote)
  }

  /** strings.FieldsFunc with white space and commas as separators. */
  function Words(s: string, current: string): seq<string>
    decreases |s|
  {
    if s == "" then if current == "" then [] else [current]
    else if IsSpace(s[0]) || s[0] == ',' then (if current == "" then [] else [current]) + Words(s[1..], "")
    else Words(s[1..], current + [s[0]])
  }

  // ---- The scanners themselves ----

  method ParseArgs(input: string, unquote: string -> Option<string>)
    returns (r: Result<map<string, string>, QueryError>)
    ensures r == ReadArgs(input, unquote)
  {
    if TrimSpace(input) == "" {
      return Ok(map[]);
    }
    var split := SplitTopLevel(input, ',');
    if split.Err? {
      return Err(split.error);
    }
    var args: map<string, string> := map[];
    var parts := split.value;
    for i := 0 to |parts|
      invariant Collect(parts, map[], unquote) == Collect(parts[i..], args, unquote)
    {
      assert parts[i..][0] == parts[i] && parts[i..][1..] == parts[i + 1..];
      var key := ArgumentKey(parts[i]);
      if key.None? {
        return Err(NotKeyValue);
      }
      if key.value in args {
        return Err(DuplicateArgument);
      }
      var value := ArgumentValue(parts[i], unquote);
      if value.Err? {
        return Err(value.error);
      }
      args := args[key.value := value.value];
    }
    return Ok(args);
  }

  method ParseFields(tail: string) returns (r: Result<seq<string>, QueryError>)
    ensures r == ReadFields(tail)
  {
    if tail == "" {
      return Ok([]);
    }
    if |tail| < 2 || tail[0] != '{' || tail[|tail| - 1] != '}' {
      return Err(BadSuffix);
    }
    var body := TrimSpace(tail[1..|tail| - 1]);
    if body == "" {
      return Err(EmptyProjection);
    }
    var words := Words(body, "");
    var fields: seq<string> := [];
    for i := 0 to |words|
      invariant Project(words, []) == Project(words[i..], fields)
    {
      assert words[i..][0] == words[i] && words[i..][1..] == words[i + 1..];
      if !FieldName(words[i]) || words[i] in fields {
        return Err(BadField);
      }
      fields := fields + [words[i]];
    }
    return Ok(fields);
  }

  /** The first half of parseStatement: name and parentheses. */
  method CleaveStatement(input: string) returns (r: Result<Pieces, QueryError>)
    ensures r == Cleave(input)
  {
    var open := IndexOf(input, '(');
    if open < 1 || open == |input| {
      return Err(NoParentheses);
    }
    var operation := TrimSpace(input[..open]);
    if !SafeName(operation) {
      return Err(BadOperation);
    }
    var close := MatchingParen(input, open);
    if close.None? {
      return Err(Unclosed);
    }
    return Ok(Pieces(operation, input[open + 1..close.value], input[close.value + 1..]));
  }

  method ParseStatement(text: string, unquote: string -> Option<string>) returns (r: Result<Statement, QueryError>)
    ensures r == ReadStatement(TrimSpace(text), unquote)
  {
    var pieces := CleaveStatement(TrimSpace(text));
    if pieces.Err? {
      return Err(pieces.error);
    }
    var args := ParseArgs(pieces.value.inside, unquote);
    if args.Err? {
      return Err(args.error);
    }
    var fields := ParseFields(TrimSpace(pieces.value.tail));
    if fields.Err? {
      return Err(fields.error);
    }
    return Ok(Statement(pieces.value.name, args.value, fields.value));
  }

  method Parse(input: string, unquote: string -> Option<string>) returns (r: Result<seq<Statement>, QueryError>)
    ensures r == ReadQuery(input, unquote)
  {
    if TrimSpace(input) == "" || Utf8Length(input) > MAX_QUERY_BYTES {
      return Err(LengthError);
    }
    var split := SplitTopLevel(input, ';');
    if split.Err? {
      return Err(split.error);
    }
    var parts := split.value;
    if |parts| > MAX_STATEMENTS {
      return Err(TooManyStatements);
    }
    var statements: seq<Statement> := [];
    for i := 0 to |parts|
      invariant |statements| == i
      invariant ReadAll(parts, [], unquote) == ReadAll(parts[i..], statements, unquote)
    {
      assert parts[i..][0] == parts[i] && parts[i..][1..] == parts[i + 1..];
      var statement := ParseStatement(parts[i], unquote);
      if statement.Err? {
        return Err(statement.error);
      }
      statements := statements + [statement.value];
    }
    return Ok(statements);
  }
}
