/**
  Token redaction of internal/chromectl/slack.go: collect the matches of the three patterns, sort
  them, merge them in place over their own buffer, and replace every merged span by the marker.
 */
module SlackRedaction {
  import opened Common
  import opened SlackPatterns

  const MARKER := "[redacted]"

  function Collected(t: string): (spans: seq<Span>)
    ensures forall s | s in spans :: s.start < s.end <= |t|
  {
    FindAll(SlackToken, t, 0) + FindAll(BearerToken, t, 0) + FindAll(JwtToken, t, 0)
  }

  // ---- Sorting: by start, longer spans first ----

  predicate Before(a: Span, b: Span) {
    if a.start == b.start then a.end > b.end else a.start < b.start
  }

  function InsertSpan(x: Span, s: seq<Span>): seq<Span> {
    if s == [] then [x] else if Before(s[0], x) then [s[0]] + InsertSpan(x, s[1..]) else [x] + s
  }

  function SortSpans(s: seq<Span>): seq<Span> {
    if s == [] then [] else InsertSpan(s[0], SortSpans(s[1..]))
  }

  ghost predicate InOrder(s: seq<Span>) {
    forall i, j | 0 <= i < j < |s| :: s[i].start <= s[j].start
  }

  lemma {:induction false} InsertSpanKeeps(x: Span, s: seq<Span>)
    ensures multiset(InsertSpan(x, s)) == multiset(s) + multiset{x}
  {
    if s != [] {
      assert s == [s[0]] + s[1..];
      InsertSpanKeeps(x, s[1..]);
    }
  }

  lemma {:induction false} InsertSpanInOrder(x: Span, s: seq<Span>)
    requires InOrder(s)
    ensures InOrder(InsertSpan(x, s))
  {
    if s != [] && Before(s[0], x) {
      InsertSpanInOrder(x, s[1..]);
      InsertSpanKeeps(x, s[1..]);
      var rest := InsertSpan(x, s[1..]);
      forall j | 0 <= j < |rest| ensures s[0].start <= rest[j].start {
        assert rest[j] in multiset(rest);
      }
    }
  }

  lemma {:induction false} SortSpansSorts(s: seq<Span>)
    ensures InOrder(SortSpans(s)) && multiset(SortSpans(s)) == multiset(s)
  {
    if s != [] {
      assert s == [s[0]] + s[1..];
      SortSpansSorts(s[1..]);
      InsertSpanInOrder(s[0], SortSpans(s[1..]));
      InsertSpanKeeps(s[0], SortSpans(s[1..]));
    }
  }

  // ---- Merging ----

  /** One turn of the merge loop. */
  function MergeOne(merged: seq<Span>, x: Span): seq<Span> {
    if merged == [] || x.start >= merged[|merged| - 1].end then merged + [x]
    else if x.end > merged[|merged| - 1].end then
      merged[..|merged| - 1] + [Span(merged[|merged| - 1].start, x.end)]
    else merged
  }

  function Merge(s: seq<Span>): (merged: seq<Span>)
    ensures |merged| <= |s|
  {
    if s == [] then [] else MergeOne(Merge(s[..|s| - 1]), s[|s| - 1])
  }

  predicate Covered(s: seq<Span>, k: int) {
    exists x :: x in s && Covers(x, k)
  }

  /** k is strictly inside some span of s, so a cut at k would split that span. */
  ghost predicate Inside(s: seq<Span>, k: int) {
    exists x :: x in s && x.start < k < x.end
  }

  ghost predicate Disjoint(s: seq<Span>) {
    && (forall x | x in s :: x.start < x.end)
    && forall i, j | 0 <= i < j < |s| :: s[i].end <= s[j].start
  }

  /** No end of a span of m cuts through a span of s. */
  ghost predicate NoSplits(m: seq<Span>, s: seq<Span>) {
    forall x | x in m :: !Inside(s, x.start) && !Inside(s, x.end)
  }

  /** The merged spans are nonempty, sorted and disjoint, cover exactly what the collected spans
      cover, split none of them, and join only what overlaps: every cut inside a merged span would
      split a collected one. */
  ghost predicate IsMergeOf(merged: seq<Span>, s: seq<Span>) {
    && Disjoint(merged)
    && (forall k :: Covered(merged, k) <==> Covered(s, k))
    && (forall x, k | x in merged && x.start < k < x.end :: Inside(s, k))
    && NoSplits(merged, s)
  }

  lemma CoveredAppend(s: seq<Span>, x: Span, k: int)
    ensures Covered(s + [x], k) <==> Covered(s, k) || Covers(x, k)
  {
    if Covered(s, k) {
      var y :| y in s && Covers(y, k);
      assert y in s + [x];
    }
    if Covers(x, k) {
      assert x in s + [x];
    }
  }

  lemma InsideAppend(s: seq<Span>, x: Span, k: int)
    ensures Inside(s + [x], k) <==> Inside(s, k) || x.start < k < x.end
  {
    if Inside(s, k) {
      var y :| y in s && y.start < k < y.end;
      assert y in s + [x];
    }
    if x.start < k < x.end {
      assert x in s + [x];
    }
  }

  /** Nothing is covered, and so no cut is inside a span, past the end of the last merged span. */
  lemma NothingPast(merged: seq<Span>, s: seq<Span>, k: int)
    requires IsMergeOf(merged, s)
    requires merged == [] || k >= merged[|merged| - 1].end
    ensures !Covered(s, k) && !Inside(s, k)
  {
    InsideIsCovered(s, k);
    forall y | y in merged ensures !Covers(y, k) { EndsBeforeLast(merged, y); }
    assert !Covered(merged, k);
  }

  lemma InsideIsCovered(s: seq<Span>, k: int)
    ensures Inside(s, k) ==> Covered(s, k)
  {
    if Inside(s, k) {
      var y :| y in s && y.start < k < y.end;
      assert Covers(y, k);
    }
  }

  lemma EndsBeforeLast(merged: seq<Span>, y: Span)
    requires Disjoint(merged) && y in merged
    ensures y.end <= merged[|merged| - 1].end
  {
    var i :| 0 <= i < |merged| && merged[i] == y;
    assert merged[|merged| - 1] in merged;
  }

  lemma NothingAfter(front: seq<Span>, last: Span, y: Span)
    requires Disjoint(front + [last]) && y in front
    ensures y.end <= last.start
  {
    var m := front + [last];
    var i :| 0 <= i < |front| && front[i] == y;
    assert m[i] == y && m[|front|] == last;
  }

  /** One turn keeps the result a merge: the new span starts no earlier than the last merged one. */
  lemma MergeOneIsMerge(merged: seq<Span>, s: seq<Span>, x: Span)
    requires IsMergeOf(merged, s) && x.start < x.end
    requires merged != [] ==> merged[|merged| - 1].start <= x.start
    ensures IsMergeOf(MergeOne(merged, x), s + [x])
  {
    var m := MergeOne(merged, x);
    if merged == [] || x.start >= merged[|merged| - 1].end {
      AppendedIsMerge(merged, s, x);
    } else {
      var front, last := merged[..|merged| - 1], merged[|merged| - 1];
      assert merged == front + [last];
      if x.end > last.end {
        ExtendedIsMerge(front, last, s, x);
      } else {
        SwallowedIsMerge(front, last, s, x);
      }
    }
  }

  lemma AppendedIsMerge(merged: seq<Span>, s: seq<Span>, x: Span)
    requires IsMergeOf(merged, s) && x.start < x.end
    requires merged != [] ==> x.start >= merged[|merged| - 1].end
    ensures IsMergeOf(merged + [x], s + [x])
  {
    var m := merged + [x];
    forall y | y in merged ensures y.end <= x.start {
      var i :| 0 <= i < |merged| && merged[i] == y;
      if i < |merged| - 1 {
        assert merged[i].end <= merged[|merged| - 1].start < merged[|merged| - 1].end by {
          assert merged[|merged| - 1] in merged;
        }
      }
    }
    AppendedDisjoint(merged, x);
    forall k ensures Covered(m, k) <==> Covered(s + [x], k) {
      CoveredAppend(merged, x, k);
      CoveredAppend(s, x, k);
    }
    forall y, k | y in m && y.start < k < y.end ensures Inside(s + [x], k) {
      InsideAppend(s, x, k);
    }
    NothingPast(merged, s, x.start);
    NothingPast(merged, s, x.end);
    forall y | y in m ensures !Inside(s + [x], y.start) && !Inside(s + [x], y.end) {
      InsideAppend(s, x, y.start);
      InsideAppend(s, x, y.end);
    }
  }

  lemma AppendedDisjoint(merged: seq<Span>, x: Span)
    requires Disjoint(merged) && x.start < x.end && forall y | y in merged :: y.end <= x.start
    ensures Disjoint(merged + [x])
  {
  }

  lemma ExtendedDisjoint(front: seq<Span>, last: Span, end: nat)
    requires Disjoint(front + [last]) && last.end < end
    ensures Disjoint(front + [Span(last.start, end)])
  {
    var merged, m := front + [last], front + [Span(last.start, end)];
    assert merged[|front|] == last && m[|front|] == Span(last.start, end) && last in merged;
    forall i, j | 0 <= i < j < |m| ensures m[i].end <= m[j].start {
      assert merged[i].end <= merged[j].start;
    }
    forall y | y in m ensures y.start < y.end {
      if y != Span(last.start, end) { assert y in merged; }
    }
  }

  lemma ExtendedIsMerge(front: seq<Span>, last: Span, s: seq<Span>, x: Span)
    requires IsMergeOf(front + [last], s) && last.start <= x.start < last.end < x.end
    ensures IsMergeOf(front + [Span(last.start, x.end)], s + [x])
  {
    var merged, longer := front + [last], Span(last.start, x.end);
    var m := front + [longer];
    assert last in merged;
    ExtendedDisjoint(front, last, x.end);
    forall k ensures Covered(m, k) <==> Covered(s + [x], k) {
      CoveredAppend(front, longer, k);
      CoveredAppend(front, last, k);
      CoveredAppend(s, x, k);
    }
    forall y, k | y in m && y.start < k < y.end ensures Inside(s + [x], k) {
      if y in front {
        assert y in merged;
      }
      InsideAppend(s, x, k);
    }
    NothingPast(merged, s, x.end);
    forall y | y in m ensures !Inside(s + [x], y.start) && !Inside(s + [x], y.end) {
      if y in front {
        NothingAfter(front, last, y);
        assert y in merged && y.start < y.end;
      }
      InsideAppend(s, x, y.start);
      InsideAppend(s, x, y.end);
    }
  }

  lemma SwallowedIsMerge(front: seq<Span>, last: Span, s: seq<Span>, x: Span)
    requires IsMergeOf(front + [last], s) && last.start <= x.start && x.end <= last.end
    ensures IsMergeOf(front + [last], s + [x])
  {
    var merged := front + [last];
    assert last in merged;
    forall k ensures Covered(merged, k) <==> Covered(s + [x], k) {
      CoveredAppend(s, x, k);
      if Covers(x, k) {
        assert Covers(last, k);
      }
    }
    forall y, k | y in merged && y.start < k < y.end ensures Inside(s + [x], k) {
      InsideAppend(s, x, k);
    }
    forall y | y in merged ensures !Inside(s + [x], y.start) && !Inside(s + [x], y.end) {
      if y in front {
        NothingAfter(front, last, y);
      }
      InsideAppend(s, x, y.start);
      InsideAppend(s, x, y.end);
    }
  }

  lemma MergeOneLast(merged: seq<Span>, x: Span)
    requires merged != [] ==> merged[|merged| - 1].start <= x.start
    ensures var m := MergeOne(merged, x); m != [] && m[|m| - 1].start <= x.start
  {
  }

  lemma LastInOrder(front: seq<Span>, x: Span)
    requires InOrder(front + [x])
    ensures InOrder(front) && (front != [] ==> front[|front| - 1].start <= x.start)
  {
    var s := front + [x];
    forall i, j | 0 <= i < j < |front| ensures front[i].start <= front[j].start {
      assert s[i].start <= s[j].start;
    }
    if front != [] {
      assert s[|front| - 1].start <= s[|front|].start;
    }
  }

  lemma {:induction false} MergeStartsEarlier(s: seq<Span>)
    requires InOrder(s)
    ensures s != [] ==> Merge(s) != [] && Merge(s)[|Merge(s)| - 1].start <= s[|s| - 1].start
  {
    if s != [] {
      var front, x := s[..|s| - 1], s[|s| - 1];
      assert s == front + [x];
      LastInOrder(front, x);
      MergeStartsEarlier(front);
      MergeOneLast(Merge(front), x);
    }
  }

  lemma {:induction false} MergeIsMerge(s: seq<Span>)
    requires InOrder(s) && forall x | x in s :: x.start < x.end
    ensures IsMergeOf(Merge(s), s)
  {
    if s == [] {
      NothingMerged();
    } else {
      var front, x := s[..|s| - 1], s[|s| - 1];
      assert s == front + [x];
      MergedStart(front, x);
      MergeIsMerge(front);
      MergeOneIsMerge(Merge(front), front, x);
    }
  }

  lemma MergedStart(front: seq<Span>, x: Span)
    requires InOrder(front + [x])
    ensures InOrder(front)
    ensures Merge(front) != [] ==> Merge(front)[|Merge(front)| - 1].start <= x.start
  {
    LastInOrder(front, x);
    MergeStartsEarlier(front);
  }

  lemma NothingMerged()
    ensures IsMergeOf([], [])
  {
  }

  /** Only one choice of spans is the merge of the collected ones. */
  lemma MergeIsUnique(a: seq<Span>, b: seq<Span>, s: seq<Span>)
    requires IsMergeOf(a, s) && IsMergeOf(b, s)
    ensures forall x :: x in a <==> x in b
  {
    forall x ensures x in a <==> x in b {
      if x in a { AlsoMerged(a, b, s, x); }
      if x in b { AlsoMerged(b, a, s, x); }
    }
  }

  lemma AlsoMerged(a: seq<Span>, b: seq<Span>, s: seq<Span>, x: Span)
    requires IsMergeOf(a, s) && IsMergeOf(b, s) && x in a
    ensures x in b
  {
    assert Covers(x, x.start) && Covered(a, x.start) && Covered(b, x.start);
    var y :| y in b && Covers(y, x.start);
    assert y.start == x.start;
    assert y.end == x.end;
  }

  function Spans(t: string): seq<Span> {
    Merge(SortSpans(Collected(t)))
  }

  lemma SpansMergeMatches(t: string)
    ensures IsMergeOf(Spans(t), Collected(t))
    ensures forall x | x in Spans(t) :: x.end <= |t|
  {
    var raw := Collected(t);
    var sorted := SortSpans(raw);
    SortSpansSorts(raw);
    SameElements(sorted, raw);
    MergeIsMerge(sorted);
    SameMerge(Spans(t), sorted, raw);
    forall x | x in Spans(t) ensures x.end <= |t| {
      assert Covers(x, x.end - 1) && Covered(Spans(t), x.end - 1);
      assert Covered(raw, x.end - 1);
    }
  }

  lemma SameMerge(merged: seq<Span>, s: seq<Span>, t: seq<Span>)
    requires IsMergeOf(merged, s) && forall x :: x in s <==> x in t
    ensures IsMergeOf(merged, t)
  {
    forall x | x in merged ensures !Inside(t, x.start) && !Inside(t, x.end) {
      assert !Inside(s, x.start) && !Inside(s, x.end);
    }
    forall k ensures Covered(s, k) <==> Covered(t, k) {
    }
    forall x, k | x in merged && x.start < k < x.end ensures Inside(t, k) {
      assert Inside(s, k);
    }
  }

  lemma MergeNext(s: seq<Span>, next: nat)
    requires next < |s|
    ensures Merge(s[..next + 1]) == MergeOne(Merge(s[..next]), s[next])
  {
    assert s[..next + 1][..next] == s[..next];
  }

  /** The merge loop over its own buffer: `kept` counts the merged spans written to the front, and no
      unread span is ever overwritten. */
  method MergeInPlace(buffer: array<Span>) returns (kept: nat)
    modifies buffer
    ensures kept <= buffer.Length
    ensures buffer[..kept] == Merge(old(buffer[..]))
  {
    kept := 0;
    ghost var sorted := buffer[..];
    for next := 0 to buffer.Length
      invariant kept <= next
      invariant buffer[next..] == sorted[next..]
      invariant buffer[..kept] == Merge(sorted[..next])
    {
      var span := buffer[next];
      ghost var merged := buffer[..kept];
      assert span == sorted[next];
      MergeNext(sorted, next);
      if kept == 0 || span.start >= buffer[kept - 1].end {
        buffer[kept] := span;
        kept := kept + 1;
        assert buffer[..kept] == merged + [span];
      } else if span.end > buffer[kept - 1].end {
        buffer[kept - 1] := Span(buffer[kept - 1].start, span.end);
        assert buffer[..kept] == merged[..kept - 1] + [Span(merged[kept - 1].start, span.end)];
      }
      assert buffer[..kept] == MergeOne(merged, span);
      assert buffer[next + 1..] == sorted[next + 1..];
    }
    assert sorted[..buffer.Length] == sorted;
  }

  lemma ShortIsMerged(s: seq<Span>)
    requires |s| < 2
    ensures Merge(SortSpans(s)) == s
  {
    if s != [] {
      assert s[1..] == [] && s == [s[0]];
      assert SortSpans(s) == [s[0]];
      assert [s[0]][..0] == [];
    }
  }

  method FindSpans(t: string) returns (spans: seq<Span>)
    ensures spans == Spans(t)
  {
    var collected := Collected(t);
    if |collected| < 2 {
      ShortIsMerged(collected);
      return collected;
    }
    var sorted := SortSpans(collected);
    var buffer := new Span[|sorted|](i requires 0 <= i < |sorted| => sorted[i]);
    assert buffer[..] == sorted;
    var kept := MergeInPlace(buffer);
    spans := buffer[..kept];
  }

  // ---- Redaction ----

  ghost predicate Fits(t: string, spans: seq<Span>, cursor: nat) {
    && cursor <= |t| && Disjoint(spans)
    && forall x | x in spans :: cursor <= x.start && x.end <= |t|
  }

  function Splice(t: string, spans: seq<Span>, cursor: nat): string
    requires Fits(t, spans, cursor)
    decreases |spans|
  {
    if spans == [] then t[cursor..]
    else
      TailFits(t, spans, cursor);
      t[cursor..spans[0].start] + MARKER + Splice(t, spans[1..], spans[0].end)
  }

  lemma TailFits(t: string, spans: seq<Span>, cursor: nat)
    requires Fits(t, spans, cursor) && spans != []
    ensures Fits(t, spans[1..], spans[0].end)
  {
    forall x | x in spans[1..] ensures spans[0].end <= x.start {
      var j :| 0 <= j < |spans[1..]| && spans[1..][j] == x;
      assert spans[j + 1] == x;
    }
  }

  lemma SpliceStep(t: string, spans: seq<Span>, cursor: nat, out: string)
    requires Fits(t, spans, cursor) && spans != []
    ensures Fits(t, spans[1..], spans[0].end)
    ensures out + Splice(t, spans, cursor) == out + t[cursor..spans[0].start] + MARKER
      + Splice(t, spans[1..], spans[0].end)
  {
    TailFits(t, spans, cursor);
    var gap, rest := t[cursor..spans[0].start], Splice(t, spans[1..], spans[0].end);
    assert out + (gap + MARKER + rest) == out + gap + MARKER + rest;
  }

  lemma SpansFit(t: string)
    ensures Fits(t, Spans(t), 0)
  {
    SpansMergeMatches(t);
  }

  function Redacted(t: string): string {
    SpansFit(t);
    Splice(t, Spans(t), 0)
  }

  lemma SpliceEnd(t: string, cursor: nat, out: string)
    requires cursor <= |t|
    ensures Fits(t, [], cursor) && out + Splice(t, [], cursor) == out + t[cursor..]
  {
  }

  method Redact(t: string) returns (out: string)
    ensures out == Redacted(t)
  {
    var spans := FindSpans(t);
    SpansFit(t);
    if |spans| == 0 {
      return t;
    }
    out := SpliceLoop(t, spans);
  }

  /** The builder loop: copy up to each span, write the marker, move the cursor behind the span. */
  method SpliceLoop(t: string, spans: seq<Span>) returns (out: string)
    requires Fits(t, spans, 0)
    ensures out == Splice(t, spans, 0)
  {
    out := "";
    var cursor: nat := 0;
    assert spans[0..] == spans;
    for i := 0 to |spans|
      invariant cursor <= |t| && Fits(t, spans[i..], cursor)
      invariant out + Splice(t, spans[i..], cursor) == Splice(t, spans, 0)
    {
      SpliceStep(t, spans[i..], cursor, out);
      assert spans[i..][0] == spans[i] && spans[i..][1..] == spans[i + 1..];
      out := out + t[cursor..spans[i].start] + MARKER;
      cursor := spans[i].end;
    }
    assert spans[|spans|..] == [];
    SpliceEnd(t, cursor, out);
    out := out + t[cursor..];
  }

  // ---- Nothing token-shaped is left ----

  /** Every place where a token shape begins, from `cursor` on, is covered. */
  ghost predicate Complete(t: string, spans: seq<Span>, cursor: int) {
    forall p, i, j | cursor <= i && TokenAt(p, t, i, j) :: Covered(spans, i)
  }

  lemma SpansAreComplete(t: string)
    ensures Complete(t, Spans(t), 0)
  {
    SpansMergeMatches(t);
    forall p, i, j | 0 <= i && TokenAt(p, t, i, j) ensures Covered(Spans(t), i) {
      SearchHits(p, t, 0, i, j);
      var s :| s in FindAll(p, t, 0) && Covers(s, i);
      assert s in Collected(t);
    }
  }

  lemma CompleteTail(t: string, spans: seq<Span>, cursor: nat)
    requires Fits(t, spans, cursor) && spans != [] && Complete(t, spans, cursor)
    ensures Complete(t, spans[1..], spans[0].end)
  {
    assert spans[0] in spans;
    forall p, i, j | spans[0].end <= i && TokenAt(p, t, i, j) ensures Covered(spans[1..], i) {
      var s :| s in spans && Covers(s, i);
      assert s in spans[1..];
    }
  }

  /** A token inside `text[a..b]` of a larger text is a token of the larger text. */
  lemma TokenInPart(p: Pattern, t: string, a: nat, b: nat, i: int, j: int)
    requires a <= b <= |t| && TokenAt(p, t[a..b], i, j)
    ensures TokenAt(p, t, a + i, a + j)
  {
    SliceSlice(t, a, b, i, j);
  }

  /** A bracket-free, long enough piece of `gap + MARKER + rest` lies in the gap or in the rest. */
  lemma AroundMarker(gap: string, rest: string, i: int, j: int)
    requires var out := gap + MARKER + rest;
      0 <= i <= j <= |out| && j - i >= 13 && '[' !in out[i..j] && ']' !in out[i..j]
    ensures j <= |gap| || i >= |gap| + |MARKER|
    ensures var out := gap + MARKER + rest;
      if j <= |gap| then out[i..j] == gap[i..j] else out[i..j] == rest[i - |gap| - |MARKER|..j - |gap| - |MARKER|]
  {
    var out := gap + MARKER + rest;
    assert out[|gap|] == '[' && out[|gap| + 9] == ']';
    OutsidePlain(out, i, j, |gap|, '[');
    OutsidePlain(out, i, j, |gap| + 9, ']');
  }

  lemma OutsidePlain(out: string, i: int, j: int, k: nat, c: char)
    requires 0 <= i <= j <= |out| && k < |out| && out[k] == c && c !in out[i..j]
    ensures k < i || j <= k
  {
  }

  lemma {:induction false} SpliceIsClean(t: string, spans: seq<Span>, cursor: nat, p: Pattern, i: int, j: int)
    requires Fits(t, spans, cursor) && Complete(t, spans, cursor)
    ensures !TokenAt(p, Splice(t, spans, cursor), i, j)
    decreases |spans|
  {
    var out := Splice(t, spans, cursor);
    if spans == [] {
      LastGapIsClean(t, cursor, p, i, j);
    } else if TokenAt(p, out, i, j) {
      TailFits(t, spans, cursor);
      var gap, rest := t[cursor..spans[0].start], Splice(t, spans[1..], spans[0].end);
      TokenIsPlain(p, out[i..j]);
      AroundMarker(gap, rest, i, j);
      GapIsClean(t, spans, cursor, p, i, j);
      CompleteTail(t, spans, cursor);
      SpliceIsClean(t, spans[1..], spans[0].end, p, i - |gap| - |MARKER|, j - |gap| - |MARKER|);
    }
  }

  lemma LastGapIsClean(t: string, cursor: nat, p: Pattern, i: int, j: int)
    requires cursor <= |t| && Complete(t, [], cursor)
    ensures !TokenAt(p, t[cursor..], i, j)
  {
    if TokenAt(p, t[cursor..], i, j) {
      assert t[cursor..] == t[cursor..|t|];
      TokenInPart(p, t, cursor, |t|, i, j);
    }
  }

  lemma GapIsClean(t: string, spans: seq<Span>, cursor: nat, p: Pattern, i: int, j: int)
    requires Fits(t, spans, cursor) && spans != [] && Complete(t, spans, cursor)
    ensures !TokenAt(p, t[cursor..spans[0].start], i, j)
  {
    if TokenAt(p, t[cursor..spans[0].start], i, j) {
      TokenIsPlain(p, t[cursor..spans[0].start][i..j]);
      TokenInPart(p, t, cursor, spans[0].start, i, j);
      GapUncovered(t, spans, cursor, cursor + i);
    }
  }

  lemma GapUncovered(t: string, spans: seq<Span>, cursor: nat, k: int)
    requires Fits(t, spans, cursor) && spans != [] && k < spans[0].start
    ensures !Covered(spans, k)
  {
    forall x | x in spans ensures !Covers(x, k) {
      var i :| 0 <= i < |spans| && spans[i] == x;
      assert spans[0] in spans;
      if i > 0 {
        assert spans[0].end <= spans[i].start;
      }
    }
  }

  /** For every text: the redacted text holds no token shape. */
  lemma RedactedHoldsNoToken(t: string)
    ensures !HoldsToken(Redacted(t))
  {
    SpansFit(t);
    SpansAreComplete(t);
    if HoldsToken(Redacted(t)) {
      var p, i, j :| TokenAt(p, Redacted(t), i, j);
      SpliceIsClean(t, Spans(t), 0, p, i, j);
    }
  }

  /** The scanner reports a token shape exactly when the text holds one. */
  lemma ContainsTokenShapeIsExact(t: string)
    ensures Spans(t) != [] <==> HoldsToken(t)
  {
    SpansMergeMatches(t);
    if HoldsToken(t) {
      var p, i, j :| TokenAt(p, t, i, j);
      SpansAreComplete(t);
      assert Covered(Spans(t), i);
    }
    if Spans(t) != [] {
      var x := Spans(t)[0];
      assert x in Spans(t) && Covers(x, x.start);
      assert Covered(Collected(t), x.start);
      var s :| s in Collected(t) && Covers(s, x.start);
      SomeMatch(t, s);
    }
  }

  lemma SomeMatch(t: string, s: Span)
    requires s in Collected(t)
    ensures HoldsToken(t)
  {
    if s in FindAll(SlackToken, t, 0) {
      SearchFindsTokens(SlackToken, t, 0, s);
    } else if s in FindAll(BearerToken, t, 0) {
      SearchFindsTokens(BearerToken, t, 0, s);
    } else {
      SearchFindsTokens(JwtToken, t, 0, s);
    }
  }

  /** Redacting once is enough. */
  lemma RedactionIsIdempotent(t: string)
    ensures Redacted(Redacted(t)) == Redacted(t)
  {
    RedactedHoldsNoToken(t);
    ContainsTokenShapeIsExact(Redacted(t));
  }

  /** Text without a token shape is returned as it is. */
  lemma CleanTextIsKept(t: string)
    ensures !HoldsToken(t) ==> Redacted(t) == t
  {
    ContainsTokenShapeIsExact(t);
  }

  // ---- And nothing else is lost ----

  /** The characters from position k on that no collected match covers, in order. */
  function Uncovered(t: string, raw: seq<Span>, k: nat): string
    requires k <= |t|
    decreases |t| - k
  {
    if k == |t| then "" else (if Covered(raw, k) then "" else [t[k]]) + Uncovered(t, raw, k + 1)
  }

  function Interleave(pieces: seq<string>): string
    requires pieces != []
  {
    if |pieces| == 1 then pieces[0] else pieces[0] + MARKER + Interleave(pieces[1..])
  }

  function Glue(pieces: seq<string>): string {
    if pieces == [] then "" else pieces[0] + Glue(pieces[1..])
  }

  lemma {:induction false} UncoveredGap(t: string, raw: seq<Span>, a: nat, b: nat)
    requires a <= b <= |t| && forall k | a <= k < b :: !Covered(raw, k)
    ensures Uncovered(t, raw, a) == t[a..b] + Uncovered(t, raw, b)
    decreases b - a
  {
    var rest := Uncovered(t, raw, b);
    if a < b {
      assert !Covered(raw, a);
      UncoveredGap(t, raw, a + 1, b);
      GapStep(t, a, b, rest);
    } else {
      assert t[a..b] + rest == rest;
    }
  }

  lemma GapStep(t: string, a: nat, b: nat, rest: string)
    requires a < b <= |t|
    ensures t[a..b] + rest == [t[a]] + (t[a + 1..b] + rest)
  {
    assert t[a..b] == [t[a]] + t[a + 1..b];
  }

  lemma {:induction false} CoveredGap(t: string, raw: seq<Span>, a: nat, b: nat)
    requires a <= b <= |t| && forall k | a <= k < b :: Covered(raw, k)
    ensures Uncovered(t, raw, a) == Uncovered(t, raw, b)
    decreases b - a
  {
    if a < b {
      CoveredGap(t, raw, a + 1, b);
    }
  }

  lemma {:induction false} SpliceKeeps(t: string, raw: seq<Span>, spans: seq<Span>, cursor: nat)
    returns (pieces: seq<string>)
    requires Fits(t, spans, cursor)
    requires forall k | cursor <= k < |t| :: Covered(spans, k) <==> Covered(raw, k)
    ensures |pieces| == |spans| + 1
    ensures Splice(t, spans, cursor) == Interleave(pieces) && Glue(pieces) == Uncovered(t, raw, cursor)
    decreases |spans|
  {
    if spans == [] {
      forall k | cursor <= k < |t| ensures !Covered(raw, k) { assert !Covered(spans, k); }
      UncoveredGap(t, raw, cursor, |t|);
      pieces := [t[cursor..]];
    } else {
      var s := spans[0];
      TailFits(t, spans, cursor);
      assert s in spans;
      forall k | cursor <= k < s.start ensures !Covered(raw, k) { GapUncovered(t, spans, cursor, k); }
      UncoveredGap(t, raw, cursor, s.start);
      forall k | s.start <= k < s.end ensures Covered(raw, k) { assert Covers(s, k); }
      CoveredGap(t, raw, s.start, s.end);
      forall k | s.end <= k < |t| ensures Covered(spans[1..], k) <==> Covered(raw, k) { CoveredTail(spans, k); }
      var rest := SpliceKeeps(t, raw, spans[1..], s.end);
      pieces := [t[cursor..s.start]] + rest;
      assert pieces[1..] == rest;
    }
  }

  lemma CoveredTail(spans: seq<Span>, k: int)
    requires spans != [] && k >= spans[0].end
    ensures Covered(spans[1..], k) <==> Covered(spans, k)
  {
    if Covered(spans, k) {
      var x :| x in spans && Covers(x, k);
      assert x in spans[1..];
    }
  }

  /** For every text: the output is the text's uncovered characters, all of them and in order, with
      one marker for each merged span. */
  lemma RedactionKeepsTheRest(t: string) returns (pieces: seq<string>)
    ensures |pieces| == |Spans(t)| + 1
    ensures Redacted(t) == Interleave(pieces) && Glue(pieces) == Uncovered(t, Collected(t), 0)
  {
    SpansFit(t);
    SpansMergeMatches(t);
    pieces := SpliceKeeps(t, Collected(t), Spans(t), 0);
  }
}
