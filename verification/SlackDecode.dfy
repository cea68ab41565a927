/**
  The bounded recursive decoder of internal/chromectl/slack.go. A response is the tree of values its
  JSON tokens spell, object members in source order and possibly with duplicate names; `Malformed`
  marks a place where the token stream breaks. The two string functions it applies, sanitizing and
  the test for secret names, are parameters here.
 */
module SlackDecode {
  import opened Common

  datatype Filter = Filter(clean: string -> string, secret: string -> bool, marker: string)

  datatype Json =
    | Text(text: string) | Number(digits: string) | Bool(b: bool) | Null
    | Arr(items: seq<Json>) | Obj(members: seq<Member>) | Malformed

  datatype Member = Member(key: string, value: Json)

  datatype Clean =
    | CleanText(text: string) | CleanNumber(digits: string) | CleanBool(b: bool) | CleanNull
    | CleanArr(items: seq<Clean>) | CleanObj(fields: map<string, Clean>)

  datatype Refusal = ResponseInvalid | TooComplex | TooDeep | KeyCollision

  const MAX_DEPTH: nat := 32
  const MAX_NODES: nat := 20000

  // ---- What the bounds and checks are about ----

  /** Values, counting every member of an object, duplicates and secrets included. */
  function Size(v: Json): nat
    decreases v, 1
  {
    match v
    case Arr(items) => 1 + SizeAll(items)
    case Obj(members) => 1 + SizeMembers(members)
    case _ => 1
  }

  function SizeAll(items: seq<Json>): nat
    decreases items, 0
  {
    if items == [] then 0 else SizeAll(items[..|items| - 1]) + Size(items[|items| - 1])
  }

  function SizeMembers(members: seq<Member>): nat
    decreases members, 0
  {
    if members == [] then 0 else SizeMembers(members[..|members| - 1]) + Size(members[|members| - 1].value)
  }

  predicate FitsDepth(v: Json, depth: nat)
    decreases v
  {
    match v
    case Arr(items) => depth + 1 <= MAX_DEPTH && forall x | x in items :: FitsDepth(x, depth + 1)
    case Obj(members) => depth + 1 <= MAX_DEPTH && forall m | m in members :: FitsDepth(m.value, depth + 1)
    case _ => true
  }

  predicate WellFormed(v: Json) {
    match v
    case Arr(items) => forall x | x in items :: WellFormed(x)
    case Obj(members) => forall m | m in members :: WellFormed(m.value)
    case Malformed => false
    case _ => true
  }

  predicate DistinctKeys(members: seq<Member>, f: Filter) {
    forall i, j | 0 <= i < j < |members| :: f.clean(members[i].key) != f.clean(members[j].key)
  }

  /** No two members of one object have names that are equal after sanitizing, also not below a
      secret-named member. */
  predicate NoCollision(v: Json, f: Filter)
    decreases v
  {
    match v
    case Arr(items) => forall x | x in items :: NoCollision(x, f)
    case Obj(members) => DistinctKeys(members, f) && forall m | m in members :: NoCollision(m.value, f)
    case _ => true
  }

  ghost predicate Acceptable(v: Json, depth: nat, nodes: nat, f: Filter) {
    WellFormed(v) && NoCollision(v, f) && FitsDepth(v, depth) && nodes + Size(v) <= MAX_NODES
  }

  /** The refusal names something that is really wrong with the value. */
  ghost predicate Justified(v: Json, depth: nat, nodes: nat, f: Filter, refusal: Refusal) {
    match refusal
    case ResponseInvalid => !WellFormed(v)
    case TooComplex => nodes + Size(v) > MAX_NODES
    case TooDeep => !FitsDepth(v, depth)
    case KeyCollision => !NoCollision(v, f)
  }

  // ---- The sanitized value ----

  /** What an accepted value becomes, stated as a relation: nothing dropped, nothing added. */
  ghost predicate Mirrors(v: Json, c: Clean, f: Filter)
    decreases v
  {
    match v
    case Text(s) => c == CleanText(f.clean(s))
    case Number(d) => c == CleanNumber(d)
    case Bool(b) => c == CleanBool(b)
    case Null => c == CleanNull
    case Malformed => false
    case Arr(items) =>
      c.CleanArr? && |c.items| == |items| && forall i | 0 <= i < |items| :: Mirrors(items[i], c.items[i], f)
    case Obj(members) =>
      && c.CleanObj? && |c.fields| == |members| && DistinctKeys(members, f)
      && forall m | m in members ::
           var key := f.clean(m.key);
           && key in c.fields
           && if f.secret(m.key) then c.fields[key] == CleanText(f.marker) else Mirrors(m.value, c.fields[key], f)
  }

  /** Every string and every member name satisfies `ok`. */
  ghost predicate AllText(c: Clean, ok: string -> bool) {
    match c
    case CleanText(s) => ok(s)
    case CleanArr(items) => forall x | x in items :: AllText(x, ok)
    case CleanObj(fields) => forall k | k in fields :: ok(k) && AllText(fields[k], ok)
    case _ => true
  }

  /** decodeSanitizedSlackValue: one value from the token stream, counting it, bounding its depth and
      refusing names that collide. */
  method Decode(v: Json, depth: nat, nodes: nat, f: Filter) returns (r: Result<Clean, Refusal>, after: nat)
    ensures r.Ok? <==> Acceptable(v, depth, nodes, f)
    ensures r.Ok? ==> Mirrors(v, r.value, f) && after == nodes + Size(v)
    ensures r.Err? ==> Justified(v, depth, nodes, f, r.error)
    decreases v, 1
  {
    after := nodes + 1;
    if after > MAX_NODES {
      return Err(TooComplex), after;
    }
    match v {
      case Malformed => r := Err(ResponseInvalid);
      case Text(s) => r := Ok(CleanText(f.clean(s)));
      case Number(d) => r := Ok(CleanNumber(d));
      case Bool(b) => r := Ok(CleanBool(b));
      case Null => r := Ok(CleanNull);
      case Arr(items) =>
        if depth + 1 > MAX_DEPTH {
          return Err(TooDeep), after;
        }
        r, after := DecodeItems(items, depth + 1, after, f);
      case Obj(members) =>
        if depth + 1 > MAX_DEPTH {
          return Err(TooDeep), after;
        }
        r, after := DecodeMembers(members, depth + 1, after, f);
    }
  }

  method DecodeItems(items: seq<Json>, depth: nat, nodes: nat, f: Filter)
    returns (r: Result<Clean, Refusal>, after: nat)
    requires nodes <= MAX_NODES
    ensures r.Ok? <==>
      && (forall x | x in items :: WellFormed(x) && NoCollision(x, f) && FitsDepth(x, depth))
      && nodes + SizeAll(items) <= MAX_NODES
    ensures r.Ok? ==> after == nodes + SizeAll(items) && r.value.CleanArr? && |r.value.items| == |items|
    ensures r.Ok? ==> forall i | 0 <= i < |items| :: Mirrors(items[i], r.value.items[i], f)
    ensures r.Err? ==> match r.error
      case TooComplex => nodes + SizeAll(items) > MAX_NODES
      case ResponseInvalid => exists x :: x in items && !WellFormed(x)
      case TooDeep => exists x :: x in items && !FitsDepth(x, depth)
      case KeyCollision => exists x :: x in items && !NoCollision(x, f)
    decreases items, 0
  {
    var out: seq<Clean> := [];
    after := nodes;
    for i := 0 to |items|
      invariant after == nodes + SizeAll(items[..i]) <= MAX_NODES
      invariant forall k | 0 <= k < i :: WellFormed(items[k]) && NoCollision(items[k], f) && FitsDepth(items[k], depth)
      invariant |out| == i && forall k | 0 <= k < i :: Mirrors(items[k], out[k], f)
    {
      SizeStep(items, i);
      assert items[i] in items;
      var one;
      one, after := Decode(items[i], depth, after, f);
      if one.Err? {
        return Err(one.error), after;
      }
      out := out + [one.value];
    }
    assert items[..|items|] == items;
    r := Ok(CleanArr(out));
  }

  lemma {:induction false} SizeStep(items: seq<Json>, i: nat)
    requires i < |items|
    ensures SizeAll(items[..i + 1]) == SizeAll(items[..i]) + Size(items[i])
    ensures SizeAll(items) >= SizeAll(items[..i + 1])
    decreases |items| - i
  {
    assert items[..i + 1][..i] == items[..i];
    if i + 1 < |items| {
      SizeStep(items, i + 1);
    } else {
      assert items[..i + 1] == items;
    }
  }

  lemma {:induction false} SizeMemberStep(members: seq<Member>, i: nat)
    requires i < |members|
    ensures SizeMembers(members[..i + 1]) == SizeMembers(members[..i]) + Size(members[i].value)
    ensures SizeMembers(members) >= SizeMembers(members[..i + 1])
    decreases |members| - i
  {
    assert members[..i + 1][..i] == members[..i];
    if i + 1 < |members| {
      SizeMemberStep(members, i + 1);
    } else {
      assert members[..i + 1] == members;
    }
  }

  ghost predicate MemberMirrored(m: Member, fields: map<string, Clean>, f: Filter) {
    var key := f.clean(m.key);
    && key in fields
    && if f.secret(m.key) then fields[key] == CleanText(f.marker) else Mirrors(m.value, fields[key], f)
  }

  ghost predicate MembersAcceptable(members: seq<Member>, depth: nat, nodes: nat, f: Filter) {
    && DistinctKeys(members, f) && nodes + SizeMembers(members) <= MAX_NODES
    && AllSound(members, depth, f)
  }

  method DecodeMembers(members: seq<Member>, depth: nat, nodes: nat, f: Filter)
    returns (r: Result<Clean, Refusal>, after: nat)
    requires nodes <= MAX_NODES
    ensures r.Ok? <==> MembersAcceptable(members, depth, nodes, f)
    ensures r.Ok? ==> after == nodes + SizeMembers(members) && r.value.CleanObj? && |r.value.fields| == |members|
    ensures r.Ok? ==> forall m | m in members :: MemberMirrored(m, r.value.fields, f)
    ensures r.Err? ==> match r.error
      case TooComplex => nodes + SizeMembers(members) > MAX_NODES
      case ResponseInvalid => exists m :: m in members && !WellFormed(m.value)
      case TooDeep => exists m :: m in members && !FitsDepth(m.value, depth)
      case KeyCollision => !DistinctKeys(members, f) || exists m :: m in members && !NoCollision(m.value, f)
    decreases members, 0
  {
    var out: map<string, Clean> := map[];
    var collision := false;
    after := nodes;
    ghost var seen: seq<Member> := [];
    for i := 0 to |members|
      invariant seen == members[..i]
      invariant after == nodes + SizeMembers(seen) <= MAX_NODES
      invariant AllSound(seen, depth, f)
      invariant Folded(seen, out, collision, f)
    {
      SizeMemberStep(members, i);
      TakeOneMore(members, i);
      var m := members[i];
      assert m in members;
      var known := f.clean(m.key) in out;
      var one;
      one, after := Decode(m.value, depth, after, f);
      if one.Err? {
        return Err(one.error), after;
      }
      SoundAppend(seen, m, depth, f);
      out, collision := AddMember(seen, m, known, one.value, out, collision, f);
      seen := seen + [m];
    }
    assert seen == members;
    if collision {
      return Err(KeyCollision), after;
    }
    r := Ok(CleanObj(out));
  }

  lemma TakeOneMore(members: seq<Member>, i: nat)
    requires i < |members|
    ensures members[..i + 1] == members[..i] + [members[i]]
  {
  }

  /** The end of one member's turn: a name met before is a collision, a new one gets its value or,
      when it names a secret, the marker. */
  method AddMember(ghost seen: seq<Member>, m: Member, known: bool, value: Clean,
                   out: map<string, Clean>, collision: bool, f: Filter)
    returns (out': map<string, Clean>, collision': bool)
    requires Folded(seen, out, collision, f) && Mirrors(m.value, value, f) && known == (f.clean(m.key) in out)
    ensures Folded(seen + [m], out', collision', f)
  {
    out', collision' := out, collision;
    if known {
      KnownName(seen, m, out, f);
      collision' := true;
    } else {
      var field := if f.secret(m.key) then CleanText(f.marker) else value;
      NewName(seen, m, out, field, f);
      out' := out[f.clean(m.key) := field];
    }
  }

  ghost predicate Folded(seen: seq<Member>, out: map<string, Clean>, collision: bool, f: Filter) {
    && NamesIn(seen, out, f)
    && (collision <==> !DistinctKeys(seen, f))
    && (!collision ==> Collected(seen, out, f))
  }

  lemma SoundAppend(seen: seq<Member>, m: Member, depth: nat, f: Filter)
    requires AllSound(seen, depth, f) && Sound(m.value, depth, f)
    ensures AllSound(seen + [m], depth, f)
  {
  }

  ghost predicate AllSound(members: seq<Member>, depth: nat, f: Filter) {
    forall m | m in members :: Sound(m.value, depth, f)
  }

  ghost predicate Sound(v: Json, depth: nat, f: Filter) {
    WellFormed(v) && NoCollision(v, f) && FitsDepth(v, depth)
  }

  /** The fields are named by exactly the members seen so far. */
  ghost predicate NamesIn(members: seq<Member>, fields: map<string, Clean>, f: Filter) {
    && (forall m | m in members :: f.clean(m.key) in fields)
    && forall k | k in fields :: exists m :: m in members && f.clean(m.key) == k
  }

  ghost predicate Collected(members: seq<Member>, fields: map<string, Clean>, f: Filter) {
    |fields| == |members| && forall m | m in members :: MemberMirrored(m, fields, f)
  }

  lemma DistinctAppend(members: seq<Member>, m: Member, f: Filter)
    ensures DistinctKeys(members + [m], f) <==>
      (DistinctKeys(members, f) && forall x | x in members :: f.clean(x.key) != f.clean(m.key))
  {
    var longer := members + [m];
    assert forall k | 0 <= k < |members| :: longer[k] == members[k] && longer[k] in members;
    if DistinctKeys(longer, f) {
      forall i, j | 0 <= i < j < |members| ensures f.clean(members[i].key) != f.clean(members[j].key) {
        assert f.clean(longer[i].key) != f.clean(longer[j].key);
      }
      forall x | x in members ensures f.clean(x.key) != f.clean(m.key) {
        var k :| 0 <= k < |members| && members[k] == x;
        assert f.clean(longer[k].key) != f.clean(longer[|members|].key);
      }
    }
  }

  lemma KnownName(members: seq<Member>, m: Member, fields: map<string, Clean>, f: Filter)
    requires NamesIn(members, fields, f) && f.clean(m.key) in fields
    ensures NamesIn(members + [m], fields, f) && !DistinctKeys(members + [m], f)
  {
    DistinctAppend(members, m, f);
    forall k | k in fields ensures exists x :: x in members + [m] && f.clean(x.key) == k {
      var x :| x in members && f.clean(x.key) == k;
      assert x in members + [m];
    }
  }

  lemma NewName(members: seq<Member>, m: Member, fields: map<string, Clean>, field: Clean, f: Filter)
    requires NamesIn(members, fields, f) && f.clean(m.key) !in fields
    ensures NamesIn(members + [m], fields[f.clean(m.key) := field], f)
    ensures DistinctKeys(members + [m], f) <==> DistinctKeys(members, f)
    ensures Collected(members, fields, f)
      && (if f.secret(m.key) then field == CleanText(f.marker) else Mirrors(m.value, field, f))
      ==> Collected(members + [m], fields[f.clean(m.key) := field], f)
  {
    var more := fields[f.clean(m.key) := field];
    DistinctAppend(members, m, f);
    forall k | k in more ensures exists x :: x in members + [m] && f.clean(x.key) == k {
      if k == f.clean(m.key) {
        assert m in members + [m];
      } else {
        var x :| x in members && f.clean(x.key) == k;
        assert x in members + [m];
      }
    }
  }

  /** What holds of every sanitized string and of the marker holds throughout an accepted value. */
  lemma {:induction false} MirrorIsAllText(v: Json, c: Clean, f: Filter, ok: string -> bool)
    requires Mirrors(v, c, f) && ok(f.marker) && forall s :: ok(f.clean(s))
    ensures AllText(c, ok)
    decreases v
  {
    match v
    case Arr(items) =>
      forall x | x in c.items ensures AllText(x, ok) {
        var i :| 0 <= i < |c.items| && c.items[i] == x;
        MirrorIsAllText(items[i], x, f, ok);
      }
    case Obj(members) =>
      FieldsComeFromMembers(members, c.fields, f);
      forall k | k in c.fields ensures ok(k) && AllText(c.fields[k], ok) {
        var m :| m in members && f.clean(m.key) == k;
        if !f.secret(m.key) {
          MirrorIsAllText(m.value, c.fields[k], f, ok);
        }
      }
    case _ =>
  }

  /** As many fields as members, each member under its own name: so there is no other field. */
  lemma FieldsComeFromMembers(members: seq<Member>, fields: map<string, Clean>, f: Filter)
    requires |fields| == |members| && DistinctKeys(members, f)
    requires forall m | m in members :: f.clean(m.key) in fields
    ensures forall k | k in fields :: exists m :: m in members && f.clean(m.key) == k
  {
    var names := Names(members, f);
    assert names <= fields.Keys;
    assert |fields.Keys| == |fields|;
    SubsetOfSameSize(names, fields.Keys);
  }

  function Names(members: seq<Member>, f: Filter): (names: set<string>)
    requires DistinctKeys(members, f)
    ensures |names| == |members|
    ensures forall k | k in names :: exists m :: m in members && f.clean(m.key) == k
  {
    if members == [] then {}
    else
      var front, last := members[..|members| - 1], members[|members| - 1];
      assert DistinctKeys(front, f);
      var names := Names(front, f);
      assert f.clean(last.key) !in names;
      names + {f.clean(last.key)}
  }

  lemma SubsetOfSameSize(a: set<string>, b: set<string>)
    requires a <= b && |a| == |b|
    ensures a == b
  {
    if a != b {
      var x :| x in b && x !in a;
      assert |a| <= |b - {x}| by { SubsetSize(a, b - {x}); }
    }
  }

  lemma {:induction false} SubsetSize(a: set<string>, b: set<string>)
    requires a <= b
    ensures |a| <= |b|
  {
    if a != {} {
      var x :| x in a;
      SubsetSize(a - {x}, b - {x});
    }
  }
}
