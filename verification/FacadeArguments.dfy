/**
  What list of internal/browserfacade/facade.go asks of a parsed statement before it reads a page: known
  arguments, integers in their ranges, fields of the adapter and a complete predicate.
 */
module FacadeArguments {
  import opened Common
  import opened QueryParse
  import FacadeList

  /** What list looks at of an adapter. `public` says that a field name could carry no session material. */
  datatype Adapter = Adapter(fields: set<string>, public: string -> bool, maxPages: int)

  /** A query validates its adapter first. */
  predicate ValidAdapter(adapter: Adapter) {
    (forall f | f in adapter.fields :: FieldName(f) && adapter.public(f)) && 1 <= adapter.maxPages <= 20
  }

  datatype ArgumentError =
    UnknownArgument | ArgumentInvalid | PaginationBoundInvalid | UnknownField | SensitiveField | QueryInvalid

  datatype Predicate = Predicate(field: string, op: string, value: string)

  /** fields: the projection; none written stands for all fields of the adapter. */
  datatype Request = Request(skip: int, take: int, maxPages: int, fields: seq<string>, where: Option<Predicate>)

  const MAX_PREDICATE_BYTES: nat := 512

  /** A key that list knows. */
  predicate ListKey(k: string) {
    || k == "skip" || k == "take" || k == "max_pages"
    || k == "where_field" || k == "where_op" || k == "where_value"
  }

  // ---- Integers ----

  function Digits(s: string): Option<nat> {
    if s == "" then Some(0)
    else
      var front, last := Digits(s[..|s| - 1]), s[|s| - 1];
      if front.None? || !('0' <= last <= '9') then None else Some(10 * front.value + (last as nat - '0' as nat))
  }

  /** strconv.Atoi: an optional sign and at least one digit. What overflows an int is out of every range here. */
  function Atoi(raw: string): Option<int> {
    var signed := raw != "" && (raw[0] == '+' || raw[0] == '-');
    var n := Digits(if signed then raw[1..] else raw);
    if n.None? || |raw| == (if signed then 1 else 0) then None
    else
      var magnitude: int := n.value;
      Some(if raw[0] == '-' then -magnitude else magnitude)
  }

  function IntArg(args: map<string, string>, name: string, fallback: int, minimum: int, maximum: int)
    : Result<int, ArgumentError>
  {
    if name !in args then Ok(fallback)
    else
      var value := Atoi(args[name]);
      if value.None? || value.value < minimum || value.value > maximum then Err(ArgumentInvalid) else Ok(value.value)
  }

  // ---- The checks ----

  /** The first field in order that may not be projected decides. */
  function CheckFields(fields: seq<string>, adapter: Adapter): Option<ArgumentError> {
    if fields == [] then None
    else if fields[0] !in adapter.fields then Some(UnknownField)
    else if !adapter.public(fields[0]) then Some(SensitiveField)
    else CheckFields(fields[1..], adapter)
  }

  predicate KnownOp(op: string) {
    op == "equals" || op == "contains" || op == "prefix"
  }

  function PredicateFrom(args: map<string, string>, adapter: Adapter): Result<Option<Predicate>, ArgumentError> {
    if "where_field" !in args && "where_value" !in args && "where_op" !in args then Ok(None)
    else if "where_field" !in args || "where_value" !in args then Err(ArgumentInvalid)
    else
      var field, op := args["where_field"], if "where_op" in args then args["where_op"] else "contains";
      if field !in adapter.fields || !adapter.public(field) then Err(UnknownField)
      else if !KnownOp(op) then Err(ArgumentInvalid)
      else Ok(Some(Predicate(field, op, args["where_value"])))
  }

  /** Skip and take, which may not reach behind the scan bound together. */
  function CheckWindow(args: map<string, string>): Result<(int, int), ArgumentError> {
    var skip := IntArg(args, "skip", 0, 0, FacadeList.MAX_SCANNED - 1);
    if skip.Err? then Err(skip.error)
    else
      var take := IntArg(args, "take", 20, 1, 100);
      if take.Err? then Err(take.error)
      else if skip.value + take.value > FacadeList.MAX_SCANNED then Err(PaginationBoundInvalid)
      else Ok((skip.value, take.value))
  }

  function CheckQuery(st: Statement, adapter: Adapter): Result<Option<Predicate>, ArgumentError> {
    var bad := CheckFields(st.fields, adapter);
    if bad.Some? then Err(bad.value)
    else
      var where := PredicateFrom(st.args, adapter);
      if where.Ok? && where.value.Some? && Utf8Length(where.value.value.value) > MAX_PREDICATE_BYTES
      then Err(QueryInvalid)
      else where
  }

  /** The request that list makes of a statement, or its refusal. */
  function Plan(st: Statement, adapter: Adapter): Result<Request, ArgumentError> {
    if exists k | k in st.args :: !ListKey(k) then Err(UnknownArgument)
    else
      var window := CheckWindow(st.args);
      if window.Err? then Err(window.error)
      else
        var maxPages := IntArg(st.args, "max_pages", adapter.maxPages, 1, adapter.maxPages);
        if maxPages.Err? then Err(maxPages.error)
        else
          var where := CheckQuery(st, adapter);
          if where.Err? then Err(where.error)
          else Ok(Request(window.value.0, window.value.1, maxPages.value, st.fields, where.value))
  }

  /** list lets the statement through. */
  predicate Admitted(st: Statement, adapter: Adapter) {
    ValidAdapter(adapter) && Plan(st, adapter).Ok?
  }

  // ---- What passes ----

  /** What list goes on with meets the bounds that its loop relies on. */
  lemma AdmittedIsInBounds(st: Statement, adapter: Adapter)
    requires Admitted(st, adapter)
    ensures var r := Plan(st, adapter).value;
      FacadeList.ListArguments(r.skip, r.take, r.maxPages, adapter.maxPages) == None
  {
  }

  predicate NumberChar(c: char) {
    '0' <= c <= '9' || c == '+' || c == '-'
  }

  lemma {:induction false} DigitsOnly(s: string)
    requires Digits(s).Some?
    ensures forall c | c in s :: '0' <= c <= '9'
  {
    if s != "" {
      DigitsOnly(s[..|s| - 1]);
      assert s == s[..|s| - 1] + [s[|s| - 1]];
    }
  }

  lemma NumbersArePlain(raw: string)
    requires Atoi(raw).Some?
    ensures ';' !in raw
  {
    if raw[0] == '+' || raw[0] == '-' {
      DigitsOnly(raw[1..]);
      assert raw == [raw[0]] + raw[1..];
    } else {
      DigitsOnly(raw);
    }
  }

  lemma NamesArePlain(name: string)
    requires FieldName(name) || KnownOp(name)
    ensures ';' !in name
  {
  }

  lemma NumberArguments(st: Statement, adapter: Adapter, k: string)
    requires Admitted(st, adapter) && k in st.args && (k == "skip" || k == "take" || k == "max_pages")
    ensures Atoi(st.args[k]).Some?
  {
  }

  lemma NameArguments(st: Statement, adapter: Adapter, k: string)
    requires Admitted(st, adapter) && k in st.args && (k == "where_field" || k == "where_op")
    ensures FieldName(st.args[k]) || KnownOp(st.args[k])
  {
  }

  /** Of a statement that list lets through, only where_value can hold a semicolon. */
  lemma AdmittedIsPlain(st: Statement, adapter: Adapter, k: string)
    requires Admitted(st, adapter) && k in st.args
    ensures ListKey(k) && (';' in st.args[k] ==> k == "where_value")
  {
    assert ListKey(k);
    if k == "skip" || k == "take" || k == "max_pages" {
      NumberArguments(st, adapter, k);
      NumbersArePlain(st.args[k]);
    } else if k != "where_value" {
      NameArguments(st, adapter, k);
      NamesArePlain(st.args[k]);
    }
  }

  /** And where_value can hold any: this statement passes whatever its value, up to the length bound. */
  lemma AnyValueIsAdmitted(adapter: Adapter, field: string, value: string)
    requires ValidAdapter(adapter) && field in adapter.fields && Utf8Length(value) <= MAX_PREDICATE_BYTES
    ensures Admitted(Statement("list", map["where_field" := field, "where_value" := value], []), adapter)
  {
    var args := map["where_field" := field, "where_value" := value];
    assert CheckWindow(args) == Ok((0, 20));
    assert PredicateFrom(args, adapter) == Ok(Some(Predicate(field, "contains", value)));
  }
}
