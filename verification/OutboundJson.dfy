/**
  inspectJSONValue of internal/browserfacade/outbound.go on a parsed value: which members and strings
  decide the verdict. Scanning one string, and normalising and judging one member name, are parameters.
 */
module OutboundJson {
  import opened Common
  import opened OutboundVariants

  datatype Json = Text(text: string) | Scalar | Object(members: seq<Member>) | Array(items: seq<Json>)

  datatype Member = Member(name: string, value: Json)

  /** scan: a string one level deeper; normalize: None where a name cannot be normalised; secret: a name
      that outboundNameState refuses. */
  datatype Judge = Judge(scan: string -> State, normalize: string -> Option<string>, secret: string -> bool)

  function Stronger(left: State, right: State): State {
    if left == Refused || right == Refused then Refused
    else if left == Unknown || right == Unknown then Unknown
    else Clean
  }

  /** A string that would have to be redacted is refused here. */
  function TextState(j: Judge, s: string): State {
    if j.scan(s) == Redacted then Refused else j.scan(s)
  }

  // ---- What decides ----

  /** Somewhere a member has a secret name or a string is refused or would be redacted. */
  ghost predicate AnyRefused(j: Judge, v: Json)
    decreases v
  {
    match v
    case Text(s) => TextState(j, s) == Refused
    case Scalar => false
    case Object(members) =>
      exists i | 0 <= i < |members| :: j.secret(members[i].name) || AnyRefused(j, members[i].value)
    case Array(items) => exists i | 0 <= i < |items| :: AnyRefused(j, items[i])
  }

  function NormalName(j: Judge, name: string): string {
    if j.normalize(name).None? then "" else j.normalize(name).value
  }

  /** Somewhere a string or a name cannot be judged, or two members of one object have one normal name. */
  ghost predicate AnyUnknown(j: Judge, v: Json)
    decreases v
  {
    match v
    case Text(s) => j.scan(s) == Unknown
    case Scalar => false
    case Object(members) => Clash(j, members) || exists i | 0 <= i < |members| :: AnyUnknown(j, members[i].value)
    case Array(items) => exists i | 0 <= i < |items| :: AnyUnknown(j, items[i])
  }

  ghost predicate Clash(j: Judge, members: seq<Member>) {
    || (exists i | 0 <= i < |members| :: j.normalize(members[i].name).None?)
    || exists i, k | 0 <= i < k < |members| :: NormalName(j, members[i].name) == NormalName(j, members[k].name)
  }

  ghost function Verdict(refused: bool, unknown: bool): State {
    if refused then Refused else if unknown then Unknown else Clean
  }

  lemma StrongerVerdict(a: bool, b: bool, c: bool, d: bool)
    ensures Stronger(Verdict(a, b), Verdict(c, d)) == Verdict(a || c, b || d)
  {
  }

  /** Every string scans clean, and every member name can be read and is not secret. */
  ghost predicate AllClean(j: Judge, v: Json)
    decreases v
  {
    match v
    case Text(s) => j.scan(s) == Clean
    case Scalar => true
    case Object(members) => forall i | 0 <= i < |members| ::
      j.normalize(members[i].name).Some? && !j.secret(members[i].name) && AllClean(j, members[i].value)
    case Array(items) => forall i | 0 <= i < |items| :: AllClean(j, items[i])
  }

  lemma {:induction false} CleanVerdict(j: Judge, v: Json)
    requires !AnyRefused(j, v) && !AnyUnknown(j, v)
    ensures AllClean(j, v)
    decreases v
  {
    match v
    case Object(members) =>
      forall i | 0 <= i < |members| ensures AllClean(j, members[i].value) { CleanVerdict(j, members[i].value); }
    case Array(items) =>
      forall i | 0 <= i < |items| ensures AllClean(j, items[i]) { CleanVerdict(j, items[i]); }
    case _ =>
  }

  // ---- inspectJSONValue ----

  /** The verdict is a matter of what occurs in the value, not of where or in which order. */
  method InspectJSONValue(j: Judge, v: Json) returns (state: State)
    ensures state == Verdict(AnyRefused(j, v), AnyUnknown(j, v))
    decreases v, 1
  {
    match v
    case Text(s) =>
      state := TextState(j, s);
    case Scalar =>
      state := Clean;
    case Object(members) =>
      state := InspectObject(j, v, members);
    case Array(items) =>
      state := InspectArray(j, v, items);
  }

  method InspectArray(j: Judge, ghost v: Json, items: seq<Json>) returns (state: State)
    requires v == Array(items)
    ensures state == Verdict(AnyRefused(j, v), AnyUnknown(j, v))
    decreases v, 0
  {
    state := Clean;
    ghost var refused, unknown := false, false;
    for i := 0 to |items|
      invariant state == Verdict(refused, unknown)
      invariant refused <==> exists k | 0 <= k < i :: AnyRefused(j, items[k])
      invariant unknown <==> exists k | 0 <= k < i :: AnyUnknown(j, items[k])
    {
      var child := InspectJSONValue(j, items[i]);
      StrongerVerdict(refused, unknown, AnyRefused(j, items[i]), AnyUnknown(j, items[i]));
      state := Stronger(state, child);
      refused, unknown := refused || AnyRefused(j, items[i]), unknown || AnyUnknown(j, items[i]);
    }
  }

  ghost predicate Names(j: Judge, seen: set<string>, members: seq<Member>, i: nat)
    requires i <= |members|
  {
    forall n :: n in seen <==> exists k :: 0 <= k < i && NormalName(j, members[k].name) == n
  }

  ghost predicate RefusedAmong(j: Judge, members: seq<Member>, n: nat)
    requires n <= |members|
  {
    exists k | 0 <= k < n :: j.secret(members[k].name) || AnyRefused(j, members[k].value)
  }

  ghost predicate UnknownAmong(j: Judge, members: seq<Member>, n: nat)
    requires n <= |members|
  {
    exists k | 0 <= k < n :: AnyUnknown(j, members[k].value)
  }

  lemma AmongTurn(j: Judge, members: seq<Member>, i: nat)
    requires i < |members|
    ensures RefusedAmong(j, members, i + 1) <==>
      RefusedAmong(j, members, i) || j.secret(members[i].name) || AnyRefused(j, members[i].value)
    ensures UnknownAmong(j, members, i + 1) <==> UnknownAmong(j, members, i) || AnyUnknown(j, members[i].value)
  {
  }

  lemma ClashTurn(j: Judge, members: seq<Member>, i: nat, seen: set<string>)
    requires i < |members| && Names(j, seen, members, i)
    ensures Names(j, seen + {NormalName(j, members[i].name)}, members, i + 1)
    ensures Clash(j, members[..i + 1]) <==>
      Clash(j, members[..i]) || j.normalize(members[i].name).None? || NormalName(j, members[i].name) in seen
  {
    var now, next := members[..i], members[..i + 1];
    assert next == now + [members[i]];
    assert next[i] == members[i];
    if NormalName(j, members[i].name) in seen {
      var k :| 0 <= k < i && NormalName(j, members[k].name) == NormalName(j, members[i].name);
      assert next[k] == members[k];
    }
    if Clash(j, now) {
      ClashKept(j, now, members[i]);
    }
  }

  lemma ClashKept(j: Judge, members: seq<Member>, m: Member)
    requires Clash(j, members)
    ensures Clash(j, members + [m])
  {
    var more := members + [m];
    if i :| 0 <= i < |members| && j.normalize(members[i].name).None? {
      assert more[i] == members[i];
    } else {
      var i, k :| 0 <= i < k < |members| && NormalName(j, members[i].name) == NormalName(j, members[k].name);
      assert more[i] == members[i] && more[k] == members[k];
    }
  }

  method InspectObject(j: Judge, ghost v: Json, members: seq<Member>) returns (state: State)
    requires v == Object(members)
    ensures state == Verdict(AnyRefused(j, v), AnyUnknown(j, v))
    decreases v, 0
  {
    state := Clean;
    var seen: set<string> := {};
    ghost var refused, unknown := false, false;
    for i := 0 to |members|
      invariant state == Verdict(refused, unknown) && Names(j, seen, members, i)
      invariant refused <==> RefusedAmong(j, members, i)
      invariant unknown <==> Clash(j, members[..i]) || UnknownAmong(j, members, i)
    {
      var name, value := members[i].name, members[i].value;
      ClashTurn(j, members, i, seen);
      AmongTurn(j, members, i);
      var normalized := NormalName(j, name);
      if j.normalize(name).None? {
        state := Stronger(state, Unknown);
        unknown := true;
      }
      if normalized in seen {
        state := Stronger(state, Unknown);
        unknown := true;
      }
      seen := seen + {normalized};
      if j.secret(name) {
        state := Refused;
        refused := true;
      }
      var child := InspectJSONValue(j, value);
      StrongerVerdict(refused, unknown, AnyRefused(j, value), AnyUnknown(j, value));
      state := Stronger(state, child);
      refused, unknown := refused || AnyRefused(j, value), unknown || AnyUnknown(j, value);
    }
    assert members[..|members|] == members;
  }
}
