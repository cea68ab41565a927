/**
  The work list of inspectNormalizedVariants in internal/browserfacade/outbound.go: which decoded forms
  of a text have been inspected when it answers clean. The decoders and the checks are parameters.
 */
module OutboundVariants {
  import opened Common

  datatype State = Clean | Redacted | Refused | Unknown

  const MAX_DEPTH: nat := 4
  const MAX_VARIANTS: nat := 16
  const MAX_VARIANT_BYTES: nat := 16 * 1024 * 1024

  /** derive: the decoded forms of a text, or None where it cannot tell; inspect: Clean, or the verdict
      that ends the search; hint: the text looks as if decoding it further could reveal something. */
  datatype Checks<!T> = Checks(
    derive: T -> Option<seq<T>>,
    inspect: (T, nat) -> State,
    hint: T -> bool,
    size: T -> nat)

  datatype Variant<T> = Variant(value: T, depth: nat)

  // ---- What is within reach ----

  predicate Derives<T(==)>(b: Checks<T>, u: T, v: T) {
    b.derive(u).Some? && v in b.derive(u).value
  }

  /** v comes from raw by at most k decodings. */
  ghost predicate Within<T(!new)>(b: Checks<T>, raw: T, k: nat, v: T)
    decreases k
  {
    if k == 0 then v == raw
    else Within(b, raw, k - 1, v) || exists u :: Within(b, raw, k - 1, u) && Derives(b, u, v)
  }

  // ---- The state of the search ----

  /** Every text found so far, in the order of finding; the queue is its tail from `head` on. */
  ghost predicate Search<T(!new)>(b: Checks<T>, raw: T, start: nat, found: seq<Variant<T>>, head: nat) {
    && head <= |found| && found != [] && found[0] == Variant(raw, start)
    && Apart(found)
    && (forall i | 0 <= i < |found| :: Sound(b, raw, start, found, i))
    && (forall i, j | 0 <= i < j < |found| :: found[i].depth <= found[j].depth)
    && (head < |found| ==> found[|found| - 1].depth <= found[head].depth + 1)
    && forall i | 0 <= i < head :: Expanded(b, found, i)
  }

  ghost predicate Apart<T(!new)>(found: seq<Variant<T>>) {
    forall i, j | 0 <= i < j < |found| :: found[i].value != found[j].value
  }

  ghost predicate Sound<T(!new)>(b: Checks<T>, raw: T, start: nat, found: seq<Variant<T>>, i: nat)
    requires i < |found|
  {
    && start <= found[i].depth <= MAX_DEPTH && Within(b, raw, found[i].depth - start, found[i].value)
    && (i > 0 ==> found[i].depth > start && b.inspect(found[i].value, found[i].depth) == Clean)
  }

  /** The text has been dealt with: everything it decodes to is found at most one deeper. */
  ghost predicate Expanded<T(!new)>(b: Checks<T>, found: seq<Variant<T>>, i: nat)
    requires i < |found|
  {
    if found[i].depth >= MAX_DEPTH then !b.hint(found[i].value)
    else
      && b.derive(found[i].value).Some?
      && forall u | u in b.derive(found[i].value).value :: FoundBy(found, u, found[i].depth + 1)
  }

  ghost predicate FoundBy<T(!new)>(found: seq<Variant<T>>, u: T, depth: nat) {
    exists j :: 0 <= j < |found| && found[j].value == u && found[j].depth <= depth
  }

  /** The sizes of the texts derived so far: found[1] to found[n - 1]. */
  function SizeOf<T>(b: Checks<T>, found: seq<Variant<T>>, n: nat): nat
    requires n <= |found|
  {
    if n <= 1 then 0 else SizeOf(b, found, n - 1) + b.size(found[n - 1].value)
  }

  function Derived<T>(b: Checks<T>, found: seq<Variant<T>>): nat {
    SizeOf(b, found, |found|)
  }

  // ---- What a verdict means ----

  /** Every decoded form within reach of the text is inspected as clean at its depth; those at the last
      depth carry no hint that decoding on would matter. */
  ghost predicate Covered<T(!new)>(b: Checks<T>, raw: T, start: nat, found: seq<Variant<T>>) {
    && Search(b, raw, start, found, |found|)
    && (forall k: nat, v | start + k <= MAX_DEPTH && Within(b, raw, k, v) :: FoundBy(found, v, start + k))
    && |found| <= MAX_VARIANTS + 1 && Derived(b, found) <= MAX_VARIANT_BYTES
  }

  /** A verdict other than clean has its reason within reach: a text that is condemned or cannot be
      decoded, or more distinct texts than the budget allows. */
  ghost predicate Justified<T(!new)>(b: Checks<T>, raw: T, start: nat, r: State) {
    || (exists v, d: nat :: start <= d <= MAX_DEPTH && Within(b, raw, d - start, v) && Condemns(b, v, d, r))
    || (r == Unknown && exists found: seq<Variant<T>> :: OverBudget(b, raw, start, found))
  }

  ghost predicate Condemns<T(!new)>(b: Checks<T>, v: T, d: nat, r: State) {
    || (r != Clean && b.inspect(v, d) == r)
    || (r == Unknown && (if d >= MAX_DEPTH then b.hint(v) else b.derive(v).None?))
  }

  ghost predicate OverBudget<T(!new)>(b: Checks<T>, raw: T, start: nat, found: seq<Variant<T>>) {
    && Apart(found)
    && found != []
    && (forall i | 0 <= i < |found| ::
          start <= found[i].depth <= MAX_DEPTH && Within(b, raw, found[i].depth - start, found[i].value))
    && (|found| > MAX_VARIANTS + 1 || Derived(b, found) > MAX_VARIANT_BYTES)
  }

  /** When nothing is left in the queue, nothing within reach was missed. */
  lemma {:induction false} NothingMissed<T(!new)>(b: Checks<T>, raw: T, start: nat, found: seq<Variant<T>>, k: nat,
                                                  v: T)
    requires Search(b, raw, start, found, |found|)
    requires start + k <= MAX_DEPTH && Within(b, raw, k, v)
    ensures FoundBy(found, v, start + k)
    decreases k
  {
    if k == 0 {
      assert found[0].value == v;
    } else if Within(b, raw, k - 1, v) {
      NothingMissed(b, raw, start, found, k - 1, v);
    } else {
      var u :| Within(b, raw, k - 1, u) && Derives(b, u, v);
      NothingMissed(b, raw, start, found, k - 1, u);
      var i :| 0 <= i < |found| && found[i].value == u && found[i].depth <= start + k - 1;
      assert Expanded(b, found, i);
      assert FoundBy(found, v, found[i].depth + 1);
    }
  }

  lemma SearchOver<T(!new)>(b: Checks<T>, raw: T, start: nat, found: seq<Variant<T>>)
    requires Search(b, raw, start, found, |found|)
    requires |found| <= MAX_VARIANTS + 1 && Derived(b, found) <= MAX_VARIANT_BYTES
    ensures Covered(b, raw, start, found)
  {
    forall k: nat, v | start + k <= MAX_DEPTH && Within(b, raw, k, v) ensures FoundBy(found, v, start + k) {
      NothingMissed(b, raw, start, found, k, v);
    }
  }

  // ---- One variant ----

  lemma OneDeeper<T(!new)>(b: Checks<T>, raw: T, start: nat, found: seq<Variant<T>>, head: nat, v: T)
    requires Search(b, raw, start, found, head) && head < |found| && found[head].depth < MAX_DEPTH
    requires Derives(b, found[head].value, v)
    ensures Within(b, raw, found[head].depth + 1 - start, v)
  {
    assert Sound(b, raw, start, found, head);
  }

  lemma FoundMore<T(!new)>(found: seq<Variant<T>>, x: Variant<T>, u: T, depth: nat)
    requires FoundBy(found, u, depth)
    ensures FoundBy(found + [x], u, depth)
  {
    var j :| 0 <= j < |found| && found[j].value == u && found[j].depth <= depth;
    assert (found + [x])[j] == found[j];
  }

  lemma StillExpanded<T(!new)>(b: Checks<T>, found: seq<Variant<T>>, x: Variant<T>, i: nat)
    requires i < |found| && Expanded(b, found, i)
    ensures Expanded(b, found + [x], i)
  {
    var more := found + [x];
    assert more[i] == found[i];
    if found[i].depth < MAX_DEPTH {
      forall u | u in b.derive(found[i].value).value ensures FoundBy(more, u, more[i].depth + 1) {
        FoundMore(found, x, u, found[i].depth + 1);
      }
    }
  }

  /** A new clean variant of the text at the head joins the end of the queue. */
  lemma NewVariant<T(!new)>(b: Checks<T>, raw: T, start: nat, found: seq<Variant<T>>, head: nat, v: T)
    requires Search(b, raw, start, found, head) && head < |found| && found[head].depth < MAX_DEPTH
    requires Derives(b, found[head].value, v) && forall i | 0 <= i < |found| :: found[i].value != v
    requires b.inspect(v, found[head].depth + 1) == Clean
    ensures Search(b, raw, start, found + [Variant(v, found[head].depth + 1)], head)
    ensures FoundBy(found + [Variant(v, found[head].depth + 1)], v, found[head].depth + 1)
  {
    var x := Variant(v, found[head].depth + 1);
    var more := found + [x];
    OneDeeper(b, raw, start, found, head, v);
    assert Sound(b, raw, start, found, head);
    forall i | 0 <= i < |more| ensures Sound(b, raw, start, more, i) {
      if i < |found| {
        assert Sound(b, raw, start, found, i);
      }
    }
    forall i | 0 <= i < head ensures Expanded(b, more, i) {
      StillExpanded(b, found, x, i);
    }
    assert more[|found|] == x;
  }

  lemma OldVariant<T(!new)>(b: Checks<T>, raw: T, start: nat, found: seq<Variant<T>>, head: nat, i: nat)
    requires Search(b, raw, start, found, head) && head < |found| && i < |found|
    ensures FoundBy(found, found[i].value, found[head].depth + 1)
  {
    assert found[i].depth <= found[|found| - 1].depth;
  }

  lemma HeadDone<T(!new)>(b: Checks<T>, raw: T, start: nat, found: seq<Variant<T>>, head: nat)
    requires Search(b, raw, start, found, head) && head < |found| && Expanded(b, found, head)
    ensures Search(b, raw, start, found, head + 1)
  {
    if head + 1 < |found| {
      assert found[head].depth <= found[head + 1].depth;
    }
  }

  lemma SearchBegins<T(!new)>(b: Checks<T>, raw: T, start: nat)
    requires start <= MAX_DEPTH
    ensures Search(b, raw, start, [Variant(raw, start)], 0)
  {
    assert Within(b, raw, 0, raw);
  }

  // ---- inspectNormalizedVariants ----

  /** The queue, the set of texts seen, and the two budget counters. */
  datatype WorkList<T> = WorkList(queue: seq<Variant<T>>, seen: set<T>, count: nat, bytes: nat)

  ghost predicate Values<T(!new)>(seen: set<T>, found: seq<Variant<T>>) {
    forall v :: v in seen <==> exists i :: 0 <= i < |found| && found[i].value == v
  }

  /** The work list stands for a search whose queue begins at `next`. */
  ghost predicate Stands<T(!new)>(b: Checks<T>, w: WorkList<T>, found: seq<Variant<T>>, next: nat) {
    && next <= |found| && found != [] && w.queue == found[next..] && Values(w.seen, found)
    && w.count == |found| - 1 <= MAX_VARIANTS && w.bytes == Derived(b, found) <= MAX_VARIANT_BYTES
  }

  lemma {:induction false} SizeOfPrefix<T(!new)>(b: Checks<T>, found: seq<Variant<T>>, x: Variant<T>, n: nat)
    requires n <= |found|
    ensures SizeOf(b, found + [x], n) == SizeOf(b, found, n)
  {
    if n > 1 {
      SizeOfPrefix(b, found, x, n - 1);
    }
  }

  lemma SizeOfMore<T(!new)>(b: Checks<T>, found: seq<Variant<T>>, x: Variant<T>)
    requires found != []
    ensures Derived(b, found + [x]) == Derived(b, found) + b.size(x.value)
  {
    SizeOfPrefix(b, found, x, |found|);
  }

  lemma StandsMore<T(!new)>(b: Checks<T>, w: WorkList<T>, found: seq<Variant<T>>, next: nat, x: Variant<T>)
    requires Stands(b, w, found, next)
    requires w.count + 1 <= MAX_VARIANTS && w.bytes + b.size(x.value) <= MAX_VARIANT_BYTES
    ensures var more := WorkList(w.queue + [x], w.seen + {x.value}, w.count + 1, w.bytes + b.size(x.value));
      Stands(b, more, found + [x], next)
  {
    SizeOfMore(b, found, x);
    var more := found + [x];
    assert more[next..] == found[next..] + [x];
    forall v ensures v in w.seen + {x.value} <==> exists i :: 0 <= i < |more| && more[i].value == v {
      if v == x.value {
        assert more[|found|].value == v;
      } else if v in w.seen {
        var i :| 0 <= i < |found| && found[i].value == v;
        assert more[i].value == v;
      }
    }
  }

  lemma BudgetBroken<T(!new)>(b: Checks<T>, raw: T, start: nat, w: WorkList<T>, found: seq<Variant<T>>, head: nat, v: T)
    requires Search(b, raw, start, found, head) && Stands(b, w, found, head + 1)
    requires head < |found| && found[head].depth < MAX_DEPTH && Derives(b, found[head].value, v) && v !in w.seen
    requires w.count + 1 > MAX_VARIANTS || w.bytes + b.size(v) > MAX_VARIANT_BYTES
    ensures Justified(b, raw, start, Unknown)
  {
    var x := Variant(v, found[head].depth + 1);
    var more := found + [x];
    OneDeeper(b, raw, start, found, head, v);
    SizeOfMore(b, found, x);
    assert Sound(b, raw, start, found, head);
    forall i | 0 <= i < |more|
      ensures start <= more[i].depth <= MAX_DEPTH && Within(b, raw, more[i].depth - start, more[i].value)
    {
      if i < |found| {
        assert Sound(b, raw, start, found, i);
      }
    }
    assert OverBudget(b, raw, start, more);
  }

  /** In the middle of the head's decoded forms: `done` of them are found. */
  ghost predicate Midway<T(!new)>(b: Checks<T>, raw: T, start: nat, w: WorkList<T>, found: seq<Variant<T>>, head: nat,
                                  current: Variant<T>, done: seq<T>)
  {
    && Search(b, raw, start, found, head) && Stands(b, w, found, head + 1)
    && found[head] == current && current.depth < MAX_DEPTH
    && AllFoundBy(found, done, current.depth + 1)
  }

  function Joined<T>(b: Checks<T>, w: WorkList<T>, x: Variant<T>): WorkList<T> {
    WorkList(w.queue + [x], w.seen + {x.value}, w.count + 1, w.bytes + b.size(x.value))
  }

  lemma SeenTurn<T(!new)>(b: Checks<T>, raw: T, start: nat, w: WorkList<T>, found: seq<Variant<T>>, head: nat,
                          current: Variant<T>, done: seq<T>, v: T)
    requires Midway(b, raw, start, w, found, head, current, done) && v in w.seen
    ensures Midway(b, raw, start, w, found, head, current, done + [v])
  {
    var k :| 0 <= k < |found| && found[k].value == v;
    OldVariant(b, raw, start, found, head, k);
  }

  ghost predicate AllFoundBy<T(!new)>(found: seq<Variant<T>>, done: seq<T>, depth: nat) {
    forall j | 0 <= j < |done| :: FoundBy(found, done[j], depth)
  }

  lemma AllFoundMore<T(!new)>(found: seq<Variant<T>>, done: seq<T>, depth: nat, x: Variant<T>)
    requires AllFoundBy(found, done, depth) && x.depth == depth
    ensures AllFoundBy(found + [x], done + [x.value], depth)
  {
    var more, all := found + [x], done + [x.value];
    forall j | 0 <= j < |all| ensures FoundBy(more, all[j], depth) {
      if j < |done| {
        FoundMore(found, x, done[j], depth);
      } else {
        assert more[|found|].value == all[j];
      }
    }
  }

  lemma Unseen<T(!new)>(w: WorkList<T>, found: seq<Variant<T>>, v: T)
    requires Values(w.seen, found) && v !in w.seen
    ensures forall i | 0 <= i < |found| :: found[i].value != v
  {
  }

  lemma SearchJoined<T(!new)>(b: Checks<T>, raw: T, start: nat, w: WorkList<T>, found: seq<Variant<T>>, head: nat, v: T)
    requires Search(b, raw, start, found, head) && head < |found| && found[head].depth < MAX_DEPTH
    requires Values(w.seen, found) && Derives(b, found[head].value, v) && v !in w.seen
    requires b.inspect(v, found[head].depth + 1) == Clean
    ensures Search(b, raw, start, found + [Variant(v, found[head].depth + 1)], head)
  {
    Unseen(w, found, v);
    NewVariant(b, raw, start, found, head, v);
  }

  lemma CondemnTurn<T(!new)>(b: Checks<T>, raw: T, start: nat, found: seq<Variant<T>>, head: nat, v: T)
    requires Search(b, raw, start, found, head) && head < |found| && found[head].depth < MAX_DEPTH
    requires Derives(b, found[head].value, v) && b.inspect(v, found[head].depth + 1) != Clean
    ensures Justified(b, raw, start, b.inspect(v, found[head].depth + 1))
  {
    OneDeeper(b, raw, start, found, head, v);
    assert Sound(b, raw, start, found, head);
    assert Condemns(b, v, found[head].depth + 1, b.inspect(v, found[head].depth + 1));
  }

  lemma HeadCondemned<T(!new)>(b: Checks<T>, raw: T, start: nat, found: seq<Variant<T>>, head: nat)
    requires Search(b, raw, start, found, head) && head < |found|
    requires if found[head].depth >= MAX_DEPTH then b.hint(found[head].value) else b.derive(found[head].value).None?
    ensures Justified(b, raw, start, Unknown)
  {
    assert Sound(b, raw, start, found, head);
    assert Condemns(b, found[head].value, found[head].depth, Unknown);
  }

  // ---- What the work list computes ----

  /** Takes up the decoded forms of one text, or gives the verdict that ends the search. */
  function AddAll<T(==)>(b: Checks<T>, variants: seq<T>, depth: nat, w: WorkList<T>): (r: Result<WorkList<T>, State>)
    ensures r.Ok? ==> w.count <= r.value.count && (r.value.count == w.count ==> r.value == w)
    ensures r.Ok? && w.count <= MAX_VARIANTS ==> r.value.count <= MAX_VARIANTS
    ensures r.Err? ==> r.error != Clean
    decreases |variants|
  {
    if variants == [] then Ok(w)
    else
      var v := variants[0];
      if v in w.seen then AddAll(b, variants[1..], depth, w)
      else if w.count + 1 > MAX_VARIANTS || w.bytes + b.size(v) > MAX_VARIANT_BYTES then Err(Unknown)
      else if b.inspect(v, depth) != Clean then Err(b.inspect(v, depth))
      else AddAll(b, variants[1..], depth, Joined(b, w, Variant(v, depth)))
  }

  function Work<T(==)>(b: Checks<T>, w: WorkList<T>): State
    requires w.count <= MAX_VARIANTS
    decreases MAX_VARIANTS - w.count, |w.queue|
  {
    if w.queue == [] then Clean
    else
      var current, rest := w.queue[0], w.(queue := w.queue[1..]);
      if current.depth >= MAX_DEPTH then if b.hint(current.value) then Unknown else Work(b, rest)
      else
        var variants := b.derive(current.value);
        if variants.None? then Unknown
        else
          var next := AddAll(b, variants.value, current.depth + 1, rest);
          if next.Err? then next.error else Work(b, next.value)
  }

  function Verdict<T(==)>(b: Checks<T>, raw: T, depth: nat): State {
    Work(b, WorkList([Variant(raw, depth)], {raw}, 0, 0))
  }

  lemma AddAllStep<T>(b: Checks<T>, variants: seq<T>, i: nat, depth: nat, w: WorkList<T>)
    requires i < |variants|
    ensures variants[..i + 1] == variants[..i] + [variants[i]]
    ensures var v := variants[i];
      AddAll(b, variants[i..], depth, w) ==
        if v in w.seen then AddAll(b, variants[i + 1..], depth, w)
        else if w.count + 1 > MAX_VARIANTS || w.bytes + b.size(v) > MAX_VARIANT_BYTES then Err(Unknown)
        else if b.inspect(v, depth) != Clean then Err(b.inspect(v, depth))
        else AddAll(b, variants[i + 1..], depth, Joined(b, w, Variant(v, depth)))
  {
    assert variants[i..][1..] == variants[i + 1..];
  }

  lemma {:induction false} AddAllSound<T(!new)>(b: Checks<T>, raw: T, start: nat, w: WorkList<T>,
                                                found: seq<Variant<T>>, head: nat, current: Variant<T>,
                                                variants: seq<T>, i: nat)
    returns (more: seq<Variant<T>>)
    requires i <= |variants| && Midway(b, raw, start, w, found, head, current, variants[..i])
    requires b.derive(current.value) == Some(variants)
    ensures var r := AddAll(b, variants[i..], current.depth + 1, w);
      if r.Ok? then Midway(b, raw, start, r.value, more, head, current, variants) else Justified(b, raw, start, r.error)
    decreases |variants| - i
  {
    more := found;
    if i == |variants| {
      assert variants[..i] == variants;
    } else {
      var v := variants[i];
      AddAllStep(b, variants, i, current.depth + 1, w);
      assert Derives(b, found[head].value, v);
      if v in w.seen {
        SeenTurn(b, raw, start, w, found, head, current, variants[..i], v);
        more := AddAllSound(b, raw, start, w, found, head, current, variants, i + 1);
      } else if w.count + 1 > MAX_VARIANTS || w.bytes + b.size(v) > MAX_VARIANT_BYTES {
        BudgetBroken(b, raw, start, w, found, head, v);
      } else if b.inspect(v, current.depth + 1) != Clean {
        CondemnTurn(b, raw, start, found, head, v);
      } else {
        var x := Variant(v, current.depth + 1);
        JoinMidway(b, raw, start, w, found, head, current, variants[..i], x);
        more := AddAllSound(b, raw, start, Joined(b, w, x), found + [x], head, current, variants, i + 1);
      }
    }
  }

  lemma JoinMidway<T(!new)>(b: Checks<T>, raw: T, start: nat, w: WorkList<T>, found: seq<Variant<T>>, head: nat,
                            current: Variant<T>, done: seq<T>, x: Variant<T>)
    requires Midway(b, raw, start, w, found, head, current, done) && x.depth == current.depth + 1
    requires Derives(b, current.value, x.value) && x.value !in w.seen && b.inspect(x.value, x.depth) == Clean
    requires w.count + 1 <= MAX_VARIANTS && w.bytes + b.size(x.value) <= MAX_VARIANT_BYTES
    ensures Midway(b, raw, start, Joined(b, w, x), found + [x], head, current, done + [x.value])
  {
    SearchJoined(b, raw, start, w, found, head, x.value);
    StandsMore(b, w, found, head + 1, x);
    AllFoundMore(found, done, x.depth, x);
    assert (found + [x])[head] == current;
  }

  lemma AllAdded<T(!new)>(b: Checks<T>, raw: T, start: nat, w: WorkList<T>, found: seq<Variant<T>>, head: nat,
                          current: Variant<T>, variants: seq<T>)
    requires Midway(b, raw, start, w, found, head, current, variants) && b.derive(current.value) == Some(variants)
    ensures Search(b, raw, start, found, head + 1) && Stands(b, w, found, head + 1)
  {
    HeadDone(b, raw, start, found, head);
  }

  lemma HeadTaken<T(!new)>(b: Checks<T>, raw: T, start: nat, w: WorkList<T>, found: seq<Variant<T>>, head: nat)
    requires Search(b, raw, start, found, head) && Stands(b, w, found, head) && |w.queue| > 0
    ensures head < |found| && w.queue[0] == found[head] && Stands(b, w.(queue := w.queue[1..]), found, head + 1)
  {
    assert found[head..][1..] == found[head + 1..];
  }

  lemma {:induction false} WorkSound<T(!new)>(b: Checks<T>, raw: T, start: nat, w: WorkList<T>, found: seq<Variant<T>>,
                                              head: nat)
    returns (all: seq<Variant<T>>)
    requires Search(b, raw, start, found, head) && Stands(b, w, found, head)
    ensures Work(b, w) == Clean ==> Covered(b, raw, start, all)
    ensures Work(b, w) != Clean ==> Justified(b, raw, start, Work(b, w))
    decreases MAX_VARIANTS - w.count, |w.queue|
  {
    all := found;
    if w.queue == [] {
      SearchOver(b, raw, start, found);
    } else {
      HeadTaken(b, raw, start, w, found, head);
      var rest := w.(queue := w.queue[1..]);
      if found[head].depth >= MAX_DEPTH {
        if b.hint(found[head].value) {
          HeadCondemned(b, raw, start, found, head);
        } else {
          HeadDone(b, raw, start, found, head);
          all := WorkSound(b, raw, start, rest, found, head + 1);
        }
      } else {
        all := WorkSoundDerived(b, raw, start, rest, found, head);
      }
    }
  }

  lemma {:induction false} WorkSoundDerived<T(!new)>(b: Checks<T>, raw: T, start: nat, rest: WorkList<T>,
                                                     found: seq<Variant<T>>, head: nat)
    returns (all: seq<Variant<T>>)
    requires Search(b, raw, start, found, head) && head < |found| && Stands(b, rest, found, head + 1)
    requires found[head].depth < MAX_DEPTH
    ensures var w := rest.(queue := [found[head]] + rest.queue);
      (Work(b, w) == Clean ==> Covered(b, raw, start, all))
        && (Work(b, w) != Clean ==> Justified(b, raw, start, Work(b, w)))
    decreases MAX_VARIANTS - rest.count, |rest.queue| + 1, 0
  {
    var w := rest.(queue := [found[head]] + rest.queue);
    assert w.queue[1..] == rest.queue && w.(queue := rest.queue) == rest;
    all := found;
    var variants := b.derive(found[head].value);
    if variants.None? {
      HeadCondemned(b, raw, start, found, head);
    } else {
      assert variants.value[..0] == [] && variants.value[0..] == variants.value;
      var more := AddAllSound(b, raw, start, rest, found, head, found[head], variants.value, 0);
      var next := AddAll(b, variants.value, found[head].depth + 1, rest);
      if next.Ok? {
        AllAdded(b, raw, start, next.value, more, head, found[head], variants.value);
        all := WorkSound(b, raw, start, next.value, more, head + 1);
      }
    }
  }

  /** Clean means that every decoded form within reach was inspected as clean; any other verdict has its
      reason within reach. */
  lemma VerdictIsSound<T(!new)>(b: Checks<T>, raw: T, depth: nat) returns (found: seq<Variant<T>>)
    requires depth <= MAX_DEPTH
    ensures Verdict(b, raw, depth) == Clean ==> Covered(b, raw, depth, found)
    ensures Verdict(b, raw, depth) != Clean ==> Justified(b, raw, depth, Verdict(b, raw, depth))
  {
    SearchBegins(b, raw, depth);
    found := WorkSound(b, raw, depth, WorkList([Variant(raw, depth)], {raw}, 0, 0), [Variant(raw, depth)], 0);
  }

  // ---- The loops ----

  method AddVariants<T(==)>(b: Checks<T>, variants: seq<T>, depth: nat, before: WorkList<T>)
    returns (r: Result<WorkList<T>, State>)
    ensures r == AddAll(b, variants, depth, before)
  {
    var w := before;
    for i := 0 to |variants|
      invariant AddAll(b, variants, depth, before) == AddAll(b, variants[i..], depth, w)
    {
      var variant := variants[i];
      assert variants[i..][0] == variant && variants[i..][1..] == variants[i + 1..];
      if variant in w.seen {
        continue;
      }
      var count, bytes := w.count + 1, w.bytes + b.size(variant);
      if count > MAX_VARIANTS || bytes > MAX_VARIANT_BYTES {
        return Err(Unknown);
      }
      var state := b.inspect(variant, depth);
      if state != Clean {
        return Err(state);
      }
      w := WorkList(w.queue + [Variant(variant, depth)], w.seen + {variant}, count, bytes);
    }
    return Ok(w);
  }

  method InspectNormalizedVariants<T(==)>(b: Checks<T>, raw: T, depth: nat) returns (r: State)
    ensures r == Verdict(b, raw, depth)
  {
    var w := WorkList([Variant(raw, depth)], {raw}, 0, 0);
    while |w.queue| > 0
      invariant w.count <= MAX_VARIANTS && Verdict(b, raw, depth) == Work(b, w)
      decreases MAX_VARIANTS - w.count, |w.queue|
    {
      var current := w.queue[0];
      w := w.(queue := w.queue[1..]);
      if current.depth >= MAX_DEPTH {
        if b.hint(current.value) {
          return Unknown;
        }
        continue;
      }
      var variants := b.derive(current.value);
      if variants.None? {
        return Unknown;
      }
      var next := AddVariants(b, variants.value, current.depth + 1, w);
      if next.Err? {
        return next.error;
      }
      w := next.value;
    }
    return Clean;
  }
}
