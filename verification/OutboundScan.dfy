/**
  The outbound boundary as a whole, scanOutboundText of internal/browserfacade/outbound.go: its recursion
  over URLs, JSON strings and decoded forms, one level deeper each time. Patterns, URL and JSON parsing and
  the decoders are parameters; whatever they answer, the recursion ends.
 */
module OutboundScan {
  import opened Common
  import opened OutboundVariants
  import opened TextOps
  import OutboundDecode
  import OutboundJson

  datatype Piece = Plain(text: string) | Link(text: string)

  /** path: each component decoded, or None where it cannot be; query: its names in the order of iteration. */
  datatype Url = Url(user: bool, host: string, path: seq<Option<string>>, query: Option<seq<Pair>>, fragment: string)

  datatype Pair = Pair(name: string, values: seq<string>)

  /** What the assignment scan reports. */
  datatype Finding = Clear | Secret | Unreadable

  datatype Tools = Tools(
    admissible: string -> bool,
    placeholder: string -> bool,
    pieces: string -> seq<Piece>,
    parse: string -> Option<Url>,
    render: Url -> string,
    shaped: string -> bool,
    selector: string -> bool,
    json: string -> Option<OutboundJson.Json>,
    secret: string -> bool,
    assignments: string -> Finding,
    credential: string -> bool,
    normalize: string -> Option<string>,
    secretName: string -> bool,
    derive: string -> Option<seq<string>>,
    hint: string -> bool,
    size: string -> nat)

  const MARKER := "[redacted]"

  datatype Decision = Decision(state: State, value: string)

  datatype Cleaned = Cleaned(state: State, safe: string, remainder: string)

  /** The levels still to go. Every nested scan is one level deeper, so with a rank for the functions and
      the length of what is left to go through, the recursion below ends on every input. */
  function Left(depth: nat): nat {
    if depth <= MAX_DEPTH then MAX_DEPTH + 1 - depth else 0
  }

  function FindingState(f: Finding): State {
    if f == Clear then Clean else if f == Secret then Refused else Unknown
  }

  predicate Stops(s: State) {
    s == Refused || s == Unknown
  }

  /** A nested text that would have to be redacted is refused. */
  function Nested(s: State): State {
    if s == Redacted then Refused else s
  }

  function NameState(t: Tools, name: string): State {
    if t.normalize(name).None? then Unknown else if t.secretName(name) then Refused else Clean
  }

  ghost function ScanText(t: Tools, raw: string, depth: nat, adapter: bool, nested: bool): Decision
    decreases Left(depth), 6
  {
    if depth > MAX_DEPTH || !t.admissible(raw) then Decision(Unknown, "")
    else if t.placeholder(raw) then Decision(Clean, raw)
    else
      var u := SanitizeUrls(t, t.pieces(raw), depth);
      if Stops(u.state) then Decision(u.state, "")
      else if JsonShaped(t, u.safe, adapter, nested) then
        var shape := InspectShape(t, u.safe, depth, adapter);
        if Stops(shape) then Decision(shape, "")
        else if u.state == Redacted then
          var again := ScanText(t, u.safe, depth + 1, adapter, nested);
          if again.state != Clean then Decision(Unknown, "") else Decision(Redacted, again.value)
        else Decision(Clean, raw)
      else
        var found := InspectRemainder(t, u.remainder, depth);
        if Stops(found) then Decision(found, "")
        else if u.state == Redacted then
          var again := ScanText(t, u.safe, depth + 1, adapter, nested);
          if Stops(again.state) then Decision(again.state, "")
          else if again.state == Redacted then Decision(Unknown, "")
          else Decision(Redacted, again.value)
        else Decision(Clean, raw)
  }

  predicate JsonShaped(t: Tools, text: string, adapter: bool, nested: bool) {
    t.shaped(text) && !(adapter && nested && t.selector(text))
  }

  /** The text outside the URLs, and every decoded form of it. */
  ghost function InspectRemainder(t: Tools, remainder: string, depth: nat): State
    requires depth <= MAX_DEPTH
    decreases Left(depth), 1
  {
    if t.secret(remainder) then Refused
    else if t.assignments(remainder) != Clear then FindingState(t.assignments(remainder))
    else if t.credential(remainder) then Unknown
    else Verdict(VariantChecks(t, depth), remainder, depth)
  }

  ghost function VariantChecks(t: Tools, depth: nat): Checks<string>
    requires depth <= MAX_DEPTH
    decreases Left(depth), 0
  {
    Checks(t.derive, (v: string, d: nat) => if depth < d <= MAX_DEPTH then InspectVariant(t, v, d) else Unknown,
      t.hint, t.size)
  }

  /** One decoded form: nothing in it may need redaction. */
  ghost function InspectVariant(t: Tools, variant: string, depth: nat): State
    requires depth <= MAX_DEPTH
    decreases Left(depth), 5
  {
    var u := SanitizeUrls(t, t.pieces(variant), depth);
    if Stops(u.state) then u.state
    else if u.state == Redacted || t.secret(u.remainder) then Refused
    else if t.assignments(u.remainder) != Clear then FindingState(t.assignments(u.remainder))
    else if t.credential(u.remainder) then Unknown
    else if Stops(InspectShape(t, u.safe, depth, false)) then InspectShape(t, u.safe, depth, false)
    else Clean
  }

  /** JSON in the text: every string of it is scanned one level deeper. */
  ghost function InspectShape(t: Tools, raw: string, depth: nat, adapter: bool): State
    requires depth <= MAX_DEPTH
    decreases Left(depth), 1
  {
    if !t.shaped(raw) then Clean
    else if t.json(raw).None? then Unknown
    else
      var judge, v := StringJudge(t, depth, adapter), t.json(raw).value;
      OutboundJson.Verdict(OutboundJson.AnyRefused(judge, v), OutboundJson.AnyUnknown(judge, v))
  }

  ghost function StringJudge(t: Tools, depth: nat, adapter: bool): OutboundJson.Judge
    requires depth <= MAX_DEPTH
    decreases Left(depth), 0
  {
    OutboundJson.Judge(s => ScanText(t, s, depth + 1, adapter, true).state, t.normalize, t.secretName)
  }

  /** The text with its URLs made safe, and the text with a blank in place of each; the first URL that
      cannot be made safe decides. */
  ghost function SanitizeUrls(t: Tools, pieces: seq<Piece>, depth: nat): Cleaned
    requires depth <= MAX_DEPTH
    decreases Left(depth), 4, |pieces|
  {
    if pieces == [] then Cleaned(Clean, "", "")
    else
      var front, last := SanitizeUrls(t, pieces[..|pieces| - 1], depth), pieces[|pieces| - 1];
      if Stops(front.state) then front
      else if last.Plain? then Cleaned(front.state, front.safe + last.text, front.remainder + last.text)
      else
        var u := SanitizeUrl(t, last.text, depth);
        if Stops(u.state) then Cleaned(u.state, "", "")
        else Cleaned(if u.state == Redacted then Redacted else front.state, front.safe + u.value, front.remainder + " ")
  }

  ghost function SanitizeUrl(t: Tools, raw: string, depth: nat): Decision
    requires depth <= MAX_DEPTH
    decreases Left(depth), 3
  {
    var parsed := t.parse(raw);
    if parsed.None? then Decision(Unknown, "")
    else
      var url := parsed.value;
      var place := HostAndPath(t, url, depth);
      if place != Clean then Decision(place, "")
      else if url.query.None? then Decision(Unknown, "")
      else
        var asked := QueryState(t, url.query.value, depth);
        if asked != Clean then Decision(asked, "")
        else
          var query, hidden := RedactQuery(t, url.query.value), url.fragment != "" && url.fragment != MARKER;
          Decision(if url.user || hidden || query != url.query.value then Redacted else Clean,
            t.render(url.(user := false, query := Some(query), fragment := if hidden then MARKER else url.fragment)))
  }

  ghost function HostAndPath(t: Tools, url: Url, depth: nat): State
    requires depth <= MAX_DEPTH
    decreases Left(depth), 2
  {
    if url.host == "" then Unknown
    else
      var host := ComponentState(t, url.host, depth);
      if host != Clean then host else PathState(t, url.path, depth)
  }

  ghost function PathState(t: Tools, path: seq<Option<string>>, depth: nat): State
    requires depth <= MAX_DEPTH
    decreases Left(depth), 1, |path|
  {
    if path == [] then Clean
    else if path[0].None? then Unknown
    else
      var first := ComponentState(t, path[0].value, depth);
      if first != Clean then first else PathState(t, path[1..], depth)
  }

  ghost function ComponentState(t: Tools, component: string, depth: nat): State
    requires depth <= MAX_DEPTH
    decreases Left(depth), 0
  {
    var s := Nested(ScanText(t, component, depth + 1, false, false).state);
    if s != Clean then s else NameState(t, component)
  }

  /** The first name or value, in the order of iteration, that may not leave decides. */
  ghost function QueryState(t: Tools, query: seq<Pair>, depth: nat): State
    requires depth <= MAX_DEPTH
    decreases Left(depth), 2, |query|
  {
    if query == [] then Clean
    else
      var first := PairState(t, query[0], depth);
      if first != Clean then first else QueryState(t, query[1..], depth)
  }

  /** The values of a secret name are redacted without a look. */
  ghost function PairState(t: Tools, p: Pair, depth: nat): State
    requires depth <= MAX_DEPTH
    decreases Left(depth), 2, 0
  {
    var name := Nested(ScanText(t, p.name, depth + 1, false, false).state);
    if name != Clean then name
    else if NameState(t, p.name) != Clean then Clean
    else ValuesState(t, p.values, depth)
  }

  ghost function ValuesState(t: Tools, values: seq<string>, depth: nat): State
    requires depth <= MAX_DEPTH
    decreases Left(depth), 1, |values|
  {
    if values == [] then Clean
    else
      var first := Nested(ScanText(t, values[0], depth + 1, false, false).state);
      if first != Clean then first else ValuesState(t, values[1..], depth)
  }

  function RedactQuery(t: Tools, query: seq<Pair>): seq<Pair> {
    seq(|query|, i requires 0 <= i < |query| =>
      if NameState(t, query[i].name) == Clean then query[i]
      else query[i].(values := seq(|query[i].values|, _ => MARKER)))
  }

  // ---- What a decision carries ----

  /** Clean carries the text itself; refused and unknown carry none. */
  lemma DecisionCarries(t: Tools, raw: string, depth: nat, adapter: bool, nested: bool)
    ensures var d := ScanText(t, raw, depth, adapter, nested);
      (d.state == Clean ==> d.value == raw && depth <= MAX_DEPTH) && (Stops(d.state) ==> d.value == "")
  {
  }

  /** Redacted carries a text that is itself clean one level deeper. */
  lemma RedactedTextIsClean(t: Tools, raw: string, depth: nat, adapter: bool, nested: bool)
    requires ScanText(t, raw, depth, adapter, nested).state == Redacted
    ensures var d := ScanText(t, raw, depth, adapter, nested);
      ScanText(t, d.value, depth + 1, adapter, nested) == Decision(Clean, d.value)
  {
    RedactedIsRescanned(t, raw, depth, adapter, nested);
    DecisionCarries(t, SanitizeUrls(t, t.pieces(raw), depth).safe, depth + 1, adapter, nested);
  }

  lemma RedactedIsRescanned(t: Tools, raw: string, depth: nat, adapter: bool, nested: bool)
    requires ScanText(t, raw, depth, adapter, nested).state == Redacted
    ensures depth <= MAX_DEPTH
    ensures var again := ScanText(t, SanitizeUrls(t, t.pieces(raw), depth).safe, depth + 1, adapter, nested);
      again.state == Clean && ScanText(t, raw, depth, adapter, nested).value == again.value
  {
  }

  // ---- What a clean decision guarantees ----

  /** Text outside JSON: neither what stands outside its URLs nor any form of that within four decodings
      holds a secret, and each such form was inspected as clean. */
  lemma CleanTextHidesNothing(t: Tools, raw: string, depth: nat, adapter: bool, nested: bool, k: nat, v: string)
    returns (d: nat)
    requires ScanText(t, raw, depth, adapter, nested).state == Clean && !t.placeholder(raw)
    requires var u := SanitizeUrls(t, t.pieces(raw), depth);
      !JsonShaped(t, u.safe, adapter, nested) && depth + k <= MAX_DEPTH
        && Within(VariantChecks(t, depth), u.remainder, k, v)
    ensures var remainder := SanitizeUrls(t, t.pieces(raw), depth).remainder;
      && !t.secret(remainder)
      && (v != remainder ==> depth < d <= depth + k && InspectVariant(t, v, d) == Clean)
  {
    var remainder, checks := SanitizeUrls(t, t.pieces(raw), depth).remainder, VariantChecks(t, depth);
    CleanRemainder(t, raw, depth, adapter, nested);
    var found := VerdictIsSound(checks, remainder, depth);
    assert FoundBy(found, v, depth + k);
    var i :| 0 <= i < |found| && found[i].value == v && found[i].depth <= depth + k;
    assert OutboundVariants.Sound(checks, remainder, depth, found, i);
    d := found[i].depth;
  }

  lemma CleanRemainder(t: Tools, raw: string, depth: nat, adapter: bool, nested: bool)
    requires ScanText(t, raw, depth, adapter, nested).state == Clean && !t.placeholder(raw)
    requires depth <= MAX_DEPTH && !JsonShaped(t, SanitizeUrls(t, t.pieces(raw), depth).safe, adapter, nested)
    ensures var remainder := SanitizeUrls(t, t.pieces(raw), depth).remainder;
      !t.secret(remainder) && Verdict(VariantChecks(t, depth), remainder, depth) == Clean
  {
    VerdictNeverRedacts(t, SanitizeUrls(t, t.pieces(raw), depth).remainder, depth);
  }

  lemma VerdictNeverRedacts(t: Tools, remainder: string, depth: nat)
    requires depth <= MAX_DEPTH
    ensures Verdict(VariantChecks(t, depth), remainder, depth) != Redacted
  {
    var checks := VariantChecks(t, depth);
    var found := VerdictIsSound(checks, remainder, depth);
    forall v, d: nat ensures checks.inspect(v, d) != Redacted {
      if depth < d <= MAX_DEPTH {
        VariantNeverRedacts(t, v, d);
      }
    }
  }

  lemma VariantNeverRedacts(t: Tools, v: string, depth: nat)
    requires depth <= MAX_DEPTH
    ensures InspectVariant(t, v, depth) != Redacted
  {
  }

  /** An inspected form shows no secret outside its URLs. */
  lemma CleanVariantHidesNothing(t: Tools, v: string, depth: nat)
    requires depth <= MAX_DEPTH && InspectVariant(t, v, depth) == Clean
    ensures var u := SanitizeUrls(t, t.pieces(v), depth); u.state == Clean && !t.secret(u.remainder)
  {
  }

  /** JSON: no member name in it is secret or unreadable, and every string of it is clean one level deeper. */
  lemma CleanJsonHidesNothing(t: Tools, raw: string, depth: nat, adapter: bool, nested: bool)
    requires ScanText(t, raw, depth, adapter, nested).state == Clean && !t.placeholder(raw)
    requires JsonShaped(t, SanitizeUrls(t, t.pieces(raw), depth).safe, adapter, nested)
    ensures var parsed := t.json(SanitizeUrls(t, t.pieces(raw), depth).safe);
      parsed.Some? && OutboundJson.AllClean(StringJudge(t, depth, adapter), parsed.value)
  {
    var safe := SanitizeUrls(t, t.pieces(raw), depth).safe;
    assert InspectShape(t, safe, depth, adapter) == Clean;
    OutboundJson.CleanVerdict(StringJudge(t, depth, adapter), t.json(safe).value);
  }

  // ---- The decoders put in ----

  /** The scan with deriveNormalizedVariants as it is; its hint patterns stay parameters. */
  function WithDecoders(t: Tools, encodedHint: string -> bool, secretHint: string -> bool): Tools {
    t.(derive := (s: string) => OutboundDecode.DeriveNormalizedVariants(s, encodedHint, secretHint),
      size := (s: string) => |s|)
  }

  lemma ChecksDecode(t: Tools, encodedHint: string -> bool, secretHint: string -> bool, depth: nat)
    requires depth <= MAX_DEPTH
    ensures var checks := VariantChecks(WithDecoders(t, encodedHint, secretHint), depth);
      OutboundDecode.Decodes(checks, encodedHint, secretHint)
  {
  }

  /** No sequence of decodings leads back to a text: every other form within reach is shorter. */
  lemma DecodedFormsShrink(t: Tools, encodedHint: string -> bool, secretHint: string -> bool, remainder: string,
                           depth: nat, k: nat, v: string)
    requires depth <= MAX_DEPTH
    requires Within(VariantChecks(WithDecoders(t, encodedHint, secretHint), depth), remainder, k, v)
    ensures v == remainder || |v| < |remainder|
  {
    var checks := VariantChecks(WithDecoders(t, encodedHint, secretHint), depth);
    ChecksDecode(t, encodedHint, secretHint, depth);
    OutboundDecode.DecodersShorten(checks, encodedHint, secretHint);
    OutboundDecode.ReachShortens(checks, remainder, k, v);
  }

  /** Percent escapes hide nothing: if a text is clean although it is another one escaped n times over,
      then that other one was inspected too and shows no secret. */
  lemma EscapingHidesNothing(t: Tools, encodedHint: string -> bool, secretHint: string -> bool,
                             text: string, n: nat, depth: nat, adapter: bool, nested: bool) returns (d: nat)
    requires OutboundDecode.Bytes(text) && text != "" && 0 < n && depth + n <= MAX_DEPTH
    requires var raw := OutboundDecode.EscapedTimes(text, n);
      && t.pieces(raw) == [Plain(raw)] && !t.placeholder(raw) && !JsonShaped(t, raw, adapter, nested)
      && ScanText(WithDecoders(t, encodedHint, secretHint), raw, depth, adapter, nested).state == Clean
    ensures depth < d <= depth + n
    ensures var tools := WithDecoders(t, encodedHint, secretHint);
      && InspectVariant(tools, text, d) == Clean
      && !t.secret(SanitizeUrls(tools, t.pieces(text), d).remainder)
  {
    var tools, raw := WithDecoders(t, encodedHint, secretHint), OutboundDecode.EscapedTimes(text, n);
    PlainPiece(tools, raw, depth);
    EscapedTextIsWithin(t, encodedHint, secretHint, text, n, depth);
    d := CleanTextHidesNothing(tools, raw, depth, adapter, nested, n, text);
    CleanVariantHidesNothing(tools, text, d);
  }

  lemma EscapedTextIsWithin(t: Tools, encodedHint: string -> bool, secretHint: string -> bool, text: string, n: nat,
                            depth: nat)
    requires OutboundDecode.Bytes(text) && text != "" && 0 < n && depth <= MAX_DEPTH
    ensures var raw := OutboundDecode.EscapedTimes(text, n);
      raw != text && Within(VariantChecks(WithDecoders(t, encodedHint, secretHint), depth), raw, n, text)
  {
    ChecksDecode(t, encodedHint, secretHint, depth);
    OutboundDecode.EscapedIsWithin(VariantChecks(WithDecoders(t, encodedHint, secretHint), depth), encodedHint,
      secretHint, text, n, 0);
    OutboundDecode.EscapedIsLonger(text, n);
  }

  lemma PlainPiece(t: Tools, raw: string, depth: nat)
    requires depth <= MAX_DEPTH
    ensures SanitizeUrls(t, [Plain(raw)], depth) == Cleaned(Clean, raw, raw)
  {
    assert [Plain(raw)][..0] == [];
    assert SanitizeUrls(t, [], depth) == Cleaned(Clean, "", "");
  }

  // ---- The order of query parameters ----

  /** Go iterates over a query in any order. Whether the query may leave does not depend on it. */
  lemma {:induction false} QueryAccepted(t: Tools, query: seq<Pair>, depth: nat)
    requires depth <= MAX_DEPTH
    ensures QueryState(t, query, depth) == Clean <==> forall p | p in query :: PairState(t, p, depth) == Clean
    decreases |query|
  {
    if query != [] {
      QueryAccepted(t, query[1..], depth);
      assert query[0] in query;
      forall p ensures p in query <==> p == query[0] || p in query[1..] {
        assert query == [query[0]] + query[1..];
      }
    }
  }

  lemma QueryOrderIrrelevant(t: Tools, a: seq<Pair>, b: seq<Pair>, depth: nat)
    requires depth <= MAX_DEPTH && multiset(a) == multiset(b)
    ensures QueryState(t, a, depth) == Clean <==> QueryState(t, b, depth) == Clean
  {
    QueryAccepted(t, a, depth);
    QueryAccepted(t, b, depth);
    SameElements(a, b);
  }

  ghost predicate OrderingsAgree(t: Tools, query: seq<Pair>, depth: nat)
    requires depth <= MAX_DEPTH
  {
    forall other | multiset(other) == multiset(query) :: QueryState(t, other, depth) == QueryState(t, query, depth)
  }

  /** No two parameters have different states other than clean. */
  ghost predicate OneReason(t: Tools, query: seq<Pair>, depth: nat)
    requires depth <= MAX_DEPTH
  {
    forall p, q | p in query && q in query ::
      PairState(t, p, depth) == Clean || PairState(t, q, depth) == Clean
        || PairState(t, p, depth) == PairState(t, q, depth)
  }

  lemma {:induction false} QueryStateIsSomePairs(t: Tools, query: seq<Pair>, depth: nat)
    requires depth <= MAX_DEPTH && QueryState(t, query, depth) != Clean
    ensures exists p :: p in query && PairState(t, p, depth) == QueryState(t, query, depth)
    decreases |query|
  {
    if PairState(t, query[0], depth) == Clean {
      QueryStateIsSomePairs(t, query[1..], depth);
      var p :| p in query[1..] && PairState(t, p, depth) == QueryState(t, query, depth);
      assert p in query;
    }
  }

  lemma OneReasonOrdersAgree(t: Tools, a: seq<Pair>, b: seq<Pair>, depth: nat)
    requires depth <= MAX_DEPTH && OneReason(t, a, depth) && multiset(a) == multiset(b)
    ensures QueryState(t, a, depth) == QueryState(t, b, depth)
  {
    QueryOrderIrrelevant(t, a, b, depth);
    if QueryState(t, a, depth) != Clean {
      QueryStateIsSomePairs(t, a, depth);
      QueryStateIsSomePairs(t, b, depth);
      SameElements(a, b);
    }
  }

  /** Some ordering has this parameter first. */
  lemma MovedToFront(query: seq<Pair>, p: Pair) returns (other: seq<Pair>)
    requires p in query
    ensures multiset(other) == multiset(query) && other != [] && other[0] == p
  {
    var i :| 0 <= i < |query| && query[i] == p;
    other := [p] + query[..i] + query[i + 1..];
    assert query == query[..i] + [p] + query[i + 1..];
  }

  /** Which verdict a query gets depends on the order of iteration if and only if two of its parameters
      may not leave for different reasons. */
  lemma QueryOrderDecidesTheRefusal(t: Tools, query: seq<Pair>, depth: nat)
    requires depth <= MAX_DEPTH
    ensures OrderingsAgree(t, query, depth) <==> OneReason(t, query, depth)
  {
    if OneReason(t, query, depth) {
      forall other | multiset(other) == multiset(query)
        ensures QueryState(t, other, depth) == QueryState(t, query, depth)
      {
        OneReasonOrdersAgree(t, query, other, depth);
      }
    } else {
      var p, q :| p in query && q in query && PairState(t, p, depth) != Clean && PairState(t, q, depth) != Clean
        && PairState(t, p, depth) != PairState(t, q, depth);
      var pFirst := MovedToFront(query, p);
      var qFirst := MovedToFront(query, q);
      assert QueryState(t, pFirst, depth) == PairState(t, p, depth);
      assert QueryState(t, qFirst, depth) == PairState(t, q, depth);
    }
  }

  /** Neither too long nor with a control character other than line breaks and tabs. */
  predicate Readable(s: string) {
    |s| <= 4 * 1024 * 1024 && forall c | c in s :: c >= ' ' || c == '\n' || c == '\r' || c == '\t'
  }

  predicate Alphanumeric(c: char) {
    '0' <= c <= '9' || 'a' <= c <= 'z' || 'A' <= c <= 'Z'
  }

  /** (akia|asia)[a-z0-9]{16} in either case, one of the alternatives of the secret pattern. */
  predicate AccessKeyAt(s: string, i: nat) {
    && i + 20 <= |s|
    && (s[i] == 'a' || s[i] == 'A') && (s[i + 1] == 'k' || s[i + 1] == 'K' || s[i + 1] == 's' || s[i + 1] == 'S')
    && (s[i + 2] == 'i' || s[i + 2] == 'I') && (s[i + 3] == 'a' || s[i + 3] == 'A')
    && forall j | i + 4 <= j < i + 20 :: Alphanumeric(s[j])
  }

  predicate ShowsAccessKey(s: string) {
    exists i | 0 <= i <= |s| - 20 :: AccessKeyAt(s, i)
  }

  predicate JsonBegins(s: string) {
    TrimSpace(s) != "" && (TrimSpace(s)[0] == '{' || TrimSpace(s)[0] == '[')
  }

  /** The code's rules as far as a query of plain names, an access key and a control character meets them:
      no text of it holds a URL, an assignment, a placeholder or an opaque credential, and no name is secret. */
  const CODE_RULES := WithDecoders(
    Tools(
      Readable, _ => false, s => [Plain(s)], _ => None, _ => "", JsonBegins, _ => false, _ => None,
      ShowsAccessKey, _ => Clear, _ => false, s => Some(s), _ => false, _ => None, _ => false, _ => 0),
    _ => false, _ => false)

  /** What those rules say of one text. */
  predicate RulesAt(t: Tools, s: string) {
    && t.admissible(s) == Readable(s) && !t.placeholder(s) && t.pieces(s) == [Plain(s)]
    && t.shaped(s) == JsonBegins(s) && t.secret(s) == ShowsAccessKey(s)
    && t.assignments(s) == Clear && !t.credential(s) && t.normalize(s).Some? && !t.secretName(s)
    && t.derive(s) == OutboundDecode.DeriveNormalizedVariants(s, _ => false, _ => false)
  }

  lemma RulesOn(t: Tools, s: string)
    requires t == CODE_RULES
    ensures RulesAt(t, s)
  {
  }

  /** A text of one piece outside JSON that holds a secret. */
  predicate SecretAt(t: Tools, s: string) {
    t.admissible(s) && !t.placeholder(s) && t.pieces(s) == [Plain(s)] && !t.shaped(s) && t.secret(s)
  }

  lemma SecretIsRefused(t: Tools, s: string, depth: nat)
    requires depth <= MAX_DEPTH && SecretAt(t, s)
    ensures ScanText(t, s, depth, false, false).state == Refused
  {
    PlainPiece(t, s, depth);
  }

  lemma NothingToDecode(t: Tools, s: string, depth: nat)
    requires depth < MAX_DEPTH && t.derive(s) == Some([])
    ensures Verdict(VariantChecks(t, depth), s, depth) == Clean
  {
    var checks, rest := VariantChecks(t, depth), WorkList([], {s}, 0, 0);
    var w := WorkList([Variant(s, depth)], {s}, 0, 0);
    assert w.queue[1..] == [] && w.(queue := []) == rest;
    assert AddAll(checks, [], depth + 1, rest) == Ok(rest);
    assert Work(checks, rest) == Clean;
  }

  /** A text of one piece outside JSON that no rule objects to and that decodes to nothing. */
  predicate PlainAt(t: Tools, s: string) {
    && t.admissible(s) && !t.placeholder(s) && t.pieces(s) == [Plain(s)] && !t.shaped(s) && !t.secret(s)
    && t.assignments(s) == Clear && !t.credential(s) && t.derive(s) == Some([])
  }

  lemma PlainIsClean(t: Tools, s: string, depth: nat)
    requires depth < MAX_DEPTH && PlainAt(t, s)
    ensures ScanText(t, s, depth, false, false).state == Clean
  {
    PlainPiece(t, s, depth);
    NothingToDecode(t, s, depth);
  }

  lemma LetterOutsideJson(s: string)
    requires s != "" && 'a' <= s[0] <= 'z' && !IsSpace(s[|s| - 1])
    ensures !JsonBegins(s)
  {
    assert TrimSpace(s) == s;
  }

  lemma LetterDecodesToNothing(s: string)
    requires |s| == 1 && 'a' <= s[0] <= 'z'
    ensures OutboundDecode.DeriveNormalizedVariants(s, _ => false, _ => false) == Some([])
  {
    assert forall c | c in s :: c == s[0];
    assert OutboundDecode.PERCENT !in s && OutboundDecode.BACKSLASH !in s;
    var none: seq<string> := [];
    assert none + none == none;
  }

  lemma LetterIsPlain(t: Tools, name: string)
    requires RulesAt(t, name) && |name| == 1 && 'a' <= name[0] <= 'z'
    ensures PlainAt(t, name) && NameState(t, name) == Clean
  {
    LetterOutsideJson(name);
    LetterDecodesToNothing(name);
  }

  lemma AccessKeyIsShown(key: string)
    requires key == "akia0000000000000000"
    ensures ShowsAccessKey(key) && Readable(key) && !JsonBegins(key)
  {
    LetterOutsideJson(key);
    assert AccessKeyAt(key, 0);
  }

  lemma AccessKeyIsSecret(t: Tools, key: string)
    requires RulesAt(t, key) && key == "akia0000000000000000"
    ensures SecretAt(t, key)
  {
    AccessKeyIsShown(key);
  }

  lemma ControlIsUnreadable(t: Tools, text: string)
    requires RulesAt(t, text) && text == "\U{0001}"
    ensures !t.admissible(text)
  {
    assert text[0] in text && !Readable(text);
  }

  lemma OneValue(t: Tools, value: string, depth: nat)
    requires depth <= MAX_DEPTH
    ensures ValuesState(t, [value], depth) == Nested(ScanText(t, value, depth + 1, false, false).state)
  {
    assert [value][1..] == [] && ValuesState(t, [], depth) == Clean;
  }

  /** Behind a plain name, one value decides. */
  lemma OneValueDecides(t: Tools, p: Pair, value: string, depth: nat)
    requires depth + 1 < MAX_DEPTH && p.values == [value] && PlainAt(t, p.name) && NameState(t, p.name) == Clean
    ensures PairState(t, p, depth) == Nested(ScanText(t, value, depth + 1, false, false).state)
  {
    PlainIsClean(t, p.name, depth + 1);
    OneValue(t, value, depth);
  }

  lemma SecretPair(t: Tools, p: Pair, value: string, depth: nat)
    requires depth + 1 < MAX_DEPTH && p.values == [value] && PlainAt(t, p.name) && NameState(t, p.name) == Clean
    requires SecretAt(t, value)
    ensures PairState(t, p, depth) == Refused
  {
    OneValueDecides(t, p, value, depth);
    SecretIsRefused(t, value, depth + 1);
  }

  lemma UnreadablePair(t: Tools, p: Pair, value: string, depth: nat)
    requires depth + 1 < MAX_DEPTH && p.values == [value] && PlainAt(t, p.name) && NameState(t, p.name) == Clean
    requires !t.admissible(value)
    ensures PairState(t, p, depth) == Unknown
  {
    OneValueDecides(t, p, value, depth);
  }

  lemma TwoPairs(t: Tools, p: Pair, q: Pair, depth: nat)
    requires depth <= MAX_DEPTH && PairState(t, p, depth) != Clean
    ensures QueryState(t, [p, q], depth) == PairState(t, p, depth)
  {
  }

  lemma KeyedPair(t: Tools, q: Pair, key: string)
    requires t == CODE_RULES && q.name == "q" && q.values == [key] && key == "akia0000000000000000"
    ensures PlainAt(t, q.name) && NameState(t, q.name) == Clean && SecretAt(t, key)
  {
    RulesOn(t, q.name);
    LetterIsPlain(t, q.name);
    RulesOn(t, key);
    AccessKeyIsSecret(t, key);
  }

  lemma ControlledPair(t: Tools, r: Pair, text: string)
    requires t == CODE_RULES && r.name == "r" && r.values == [text] && text == "\U{0001}"
    ensures PlainAt(t, r.name) && NameState(t, r.name) == Clean && !t.admissible(text)
  {
    RulesOn(t, r.name);
    LetterIsPlain(t, r.name);
    RulesOn(t, text);
    ControlIsUnreadable(t, text);
  }

  lemma RefusalsFollow(t: Tools, q: Pair, key: string, r: Pair, text: string)
    requires q.values == [key] && PlainAt(t, q.name) && NameState(t, q.name) == Clean && SecretAt(t, key)
    requires r.values == [text] && PlainAt(t, r.name) && NameState(t, r.name) == Clean && !t.admissible(text)
    ensures QueryState(t, [q, r], 0) == Refused && QueryState(t, [r, q], 0) == Unknown
  {
    SecretPair(t, q, key, 0);
    UnreadablePair(t, r, text, 0);
    TwoPairs(t, q, r, 0);
    TwoPairs(t, r, q, 0);
  }

  /** So under the code's own rules the query q=akia0000000000000000&r=%01 is refused in one order and unknown
      in the other. */
  lemma BothRefusalsOccur(t: Tools, q: Pair, r: Pair)
    requires t == CODE_RULES && q == Pair("q", ["akia0000000000000000"]) && r == Pair("r", ["\U{0001}"])
    ensures QueryState(t, [q, r], 0) == Refused && QueryState(t, [r, q], 0) == Unknown
  {
    KeyedPair(t, q, q.values[0]);
    ControlledPair(t, r, r.values[0]);
    RefusalsFollow(t, q, q.values[0], r, r.values[0]);
  }
}
