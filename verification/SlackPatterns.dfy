/**
  The three token shapes of internal/chromectl/slack.go. Each is given twice: as a set of strings,
  and as the greedy matcher a leftmost-first engine runs from one position. Text is a sequence of
  code points.
 */
module SlackPatterns {
  import opened Common

  datatype Pattern = SlackToken | BearerToken | JwtToken

  datatype Span = Span(start: nat, end: nat)

  // ---- Character classes. Case folding adds U+017F and U+212A to the letters s and k ----

  predicate AsciiLetter(c: char) {
    'a' <= c <= 'z' || 'A' <= c <= 'Z'
  }

  predicate FoldedLetter(c: char) {
    AsciiLetter(c) || c == '\U{017F}' || c == '\U{212A}'
  }

  predicate Digit(c: char) {
    '0' <= c <= '9'
  }

  predicate TokenChar(c: char) {
    FoldedLetter(c) || Digit(c) || c == '-'
  }

  predicate BearerChar(c: char) {
    TokenChar(c) || c == '.' || c == '_' || c == '~' || c == '+' || c == '/' || c == '='
  }

  predicate JwtChar(c: char) {
    AsciiLetter(c) || Digit(c) || c == '_' || c == '-'
  }

  predicate SpaceChar(c: char) {
    c == ' ' || c == '\t' || c == '\n' || c == '\r' || c == '\U{000B}' || c == '\U{000C}'
  }

  predicate Letter(c: char, lower: char, upper: char) {
    c == lower || c == upper
  }

  // ---- The shapes as sets of strings ----

  predicate SlackHead(w: string)
    requires |w| >= 5
  {
    && Letter(w[0], 'x', 'X') && w[4] == '-'
    && ((Letter(w[1], 'o', 'O') && Letter(w[2], 'x', 'X') && FoldedLetter(w[3]))
        || (Letter(w[1], 'a', 'A') && Letter(w[2], 'p', 'P') && Letter(w[3], 'p', 'P')))
  }

  predicate BearerHead(w: string)
    requires |w| >= 6
  {
    && Letter(w[0], 'b', 'B') && Letter(w[1], 'e', 'E') && Letter(w[2], 'a', 'A')
    && Letter(w[3], 'r', 'R') && Letter(w[4], 'e', 'E') && Letter(w[5], 'r', 'R')
  }

  predicate All(cls: char -> bool, w: string) {
    forall c | c in w :: cls(c)
  }

  /** Zero or more further labels, each behind a dot. */
  ghost predicate JwtTail(w: string) {
    w == "" || exists n: nat {:trigger w[n..]} ::
      2 <= n <= |w| && w[0] == '.' && All(JwtChar, w[1..n]) && JwtTail(w[n..])
  }

  ghost predicate IsSlack(w: string) {
    |w| >= 13 && SlackHead(w) && All(TokenChar, w[5..])
  }

  ghost predicate BearerSplit(w: string, m: int) {
    6 < m && m + 8 <= |w| && BearerHead(w) && All(SpaceChar, w[6..m]) && All(BearerChar, w[m..])
  }

  ghost predicate IsBearer(w: string) {
    exists m :: BearerSplit(w, m)
  }

  ghost predicate JwtSplit(w: string, a: int, b: int, c: int) {
    && 12 <= a && a + 13 <= b && b + 13 <= c <= |w|
    && w[a] == '.' && w[b] == '.'
    && All(JwtChar, w[..a]) && All(JwtChar, w[a + 1..b]) && All(JwtChar, w[b + 1..c]) && JwtTail(w[c..])
  }

  ghost predicate IsJwt(w: string) {
    exists a, b, c :: JwtSplit(w, a, b, c)
  }

  ghost predicate InLanguage(p: Pattern, w: string) {
    match p
    case SlackToken => IsSlack(w)
    case BearerToken => IsBearer(w)
    case JwtToken => IsJwt(w)
  }

  /** The text holds some token shape. */
  ghost predicate HoldsToken(t: string) {
    exists p, i, j :: TokenAt(p, t, i, j)
  }

  ghost predicate TokenAt(p: Pattern, t: string, i: int, j: int) {
    0 <= i <= j <= |t| && InLanguage(p, t[i..j])
  }

  // ---- The matcher ----

  /** The end of the longest run of class characters from i on. */
  function RunEnd(cls: char -> bool, t: string, i: nat): (e: nat)
    requires i <= |t|
    ensures i <= e <= |t|
    ensures forall k | i <= k < e :: cls(t[k])
    ensures e < |t| ==> !cls(t[e])
    decreases |t| - i
  {
    if i < |t| && cls(t[i]) then RunEnd(cls, t, i + 1) else i
  }

  function TailEnd(t: string, i: nat): (e: nat)
    requires i <= |t|
    ensures i <= e <= |t|
    decreases |t| - i
  {
    if i < |t| && t[i] == '.' && RunEnd(JwtChar, t, i + 1) > i + 1 then TailEnd(t, RunEnd(JwtChar, t, i + 1)) else i
  }

  /** Where a match that begins at i ends, if one begins there. */
  function MatchEnd(p: Pattern, t: string, i: nat): (e: Option<nat>)
    requires i <= |t|
    ensures e.Some? ==> i < e.value <= |t|
  {
    match p
    case SlackToken =>
      if i + 5 <= |t| && SlackHead(t[i..]) then
        var e := RunEnd(TokenChar, t, i + 5);
        if e >= i + 13 then Some(e) else None
      else None
    case BearerToken =>
      if i + 6 <= |t| && BearerHead(t[i..]) then
        var s := RunEnd(SpaceChar, t, i + 6);
        var e := RunEnd(BearerChar, t, s);
        if s > i + 6 && e >= s + 8 then Some(e) else None
      else None
    case JwtToken =>
      var a := RunEnd(JwtChar, t, i);
      if a < i + 12 || a == |t| || t[a] != '.' then None
      else
        var b := RunEnd(JwtChar, t, a + 1);
        if b < a + 13 || b == |t| || t[b] != '.' then None
        else
          var c := RunEnd(JwtChar, t, b + 1);
          if c < b + 13 then None else Some(TailEnd(t, c))
  }

  lemma RunReaches(cls: char -> bool, t: string, i: nat, j: nat)
    requires i <= j <= |t| && forall k | i <= k < j :: cls(t[k])
    ensures j <= RunEnd(cls, t, i)
  {
  }

  /** A run that is followed by a character outside the class ends exactly there. */
  lemma RunStops(cls: char -> bool, t: string, i: nat, j: nat)
    requires i <= j < |t| && (forall k | i <= k < j :: cls(t[k])) && !cls(t[j])
    ensures RunEnd(cls, t, i) == j
  {
    RunReaches(cls, t, i, j);
  }

  lemma SliceAll(cls: char -> bool, t: string, i: nat, j: nat, a: nat, b: nat)
    requires i <= j <= |t| && a <= b <= j - i && All(cls, t[i..j][a..b])
    ensures forall k | i + a <= k < i + b :: cls(t[k])
  {
    forall k | i + a <= k < i + b ensures cls(t[k]) {
      assert t[i..j][a..b][k - i - a] == t[k];
    }
  }

  lemma AllSlice(cls: char -> bool, t: string, i: nat, j: nat)
    requires i <= j <= |t| && forall k | i <= k < j :: cls(t[k])
    ensures All(cls, t[i..j])
  {
  }

  /** The matcher finds nothing but the shape. */
  lemma MatchIsInLanguage(p: Pattern, t: string, i: nat)
    requires i <= |t| && MatchEnd(p, t, i).Some?
    ensures InLanguage(p, t[i..MatchEnd(p, t, i).value])
  {
    match p
    case SlackToken => SlackMatchIsSlack(t, i);
    case BearerToken => BearerMatchIsBearer(t, i);
    case JwtToken => JwtMatchIsJwt(t, i);
  }

  lemma SlackMatchIsSlack(t: string, i: nat)
    requires i <= |t| && MatchEnd(SlackToken, t, i).Some?
    ensures IsSlack(t[i..MatchEnd(SlackToken, t, i).value])
  {
    var e := MatchEnd(SlackToken, t, i).value;
    AllSlice(TokenChar, t, i + 5, e);
    assert t[i..e][5..] == t[i + 5..e];
  }

  lemma BearerMatchIsBearer(t: string, i: nat)
    requires i <= |t| && MatchEnd(BearerToken, t, i).Some?
    ensures IsBearer(t[i..MatchEnd(BearerToken, t, i).value])
  {
    var e := MatchEnd(BearerToken, t, i).value;
    var w := t[i..e];
    var s := RunEnd(SpaceChar, t, i + 6);
    AllSlice(SpaceChar, t, i + 6, s);
    AllSlice(BearerChar, t, s, e);
    assert w[6..s - i] == t[i + 6..s] && w[s - i..] == t[s..e];
    assert BearerSplit(w, s - i);
  }

  /** A split of t[i..j] into labels, by positions of the whole text. */
  ghost predicate Labels(t: string, i: int, a: int, b: int, c: int, j: int) {
    && 0 <= i && i + 12 <= a && a + 13 <= b && b + 13 <= c <= j <= |t|
    && t[a] == '.' && t[b] == '.'
    && Run(t, i, a) && Run(t, a + 1, b) && Run(t, b + 1, c) && JwtTail(t[c..j])
  }

  ghost predicate Run(t: string, i: int, j: int)
    requires 0 <= i && j <= |t|
  {
    forall k | i <= k < j :: JwtChar(t[k])
  }

  lemma SliceSlice(t: string, i: nat, j: nat, x: nat, y: nat)
    requires i <= j <= |t| && x <= y <= j - i
    ensures t[i..j][x..y] == t[i + x..i + y]
  {
    var a, b := t[i..j][x..y], t[i + x..i + y];
    assert |a| == |b|;
    assert forall k | 0 <= k < |a| :: a[k] == b[k];
  }

  lemma LabelsSplit(t: string, i: nat, a: nat, b: nat, c: nat, j: nat)
    requires Labels(t, i, a, b, c, j)
    ensures JwtSplit(t[i..j], a - i, b - i, c - i)
  {
    var w := t[i..j];
    AllSlice(JwtChar, t, i, a);
    AllSlice(JwtChar, t, a + 1, b);
    AllSlice(JwtChar, t, b + 1, c);
    SliceSlice(t, i, j, 0, a - i);
    SliceSlice(t, i, j, a - i + 1, b - i);
    SliceSlice(t, i, j, b - i + 1, c - i);
    SliceSlice(t, i, j, c - i, j - i);
    assert w[..a - i] == w[0..a - i] && w[c - i..] == w[c - i..j - i];
  }

  lemma SplitLabels(t: string, i: nat, j: nat, a: nat, b: nat, c: nat)
    requires i <= j <= |t| && JwtSplit(t[i..j], a, b, c)
    ensures Labels(t, i, i + a, i + b, i + c, j)
  {
    var w := t[i..j];
    SliceAll(JwtChar, t, i, j, 0, a);
    SliceAll(JwtChar, t, i, j, a + 1, b);
    SliceAll(JwtChar, t, i, j, b + 1, c);
    assert w[a] == t[i + a] && w[b] == t[i + b];
    assert w[c..] == t[i + c..j];
  }

  lemma JwtMatchIsJwt(t: string, i: nat)
    requires i <= |t| && MatchEnd(JwtToken, t, i).Some?
    ensures IsJwt(t[i..MatchEnd(JwtToken, t, i).value])
  {
    var a := RunEnd(JwtChar, t, i);
    var b := RunEnd(JwtChar, t, a + 1);
    var c := RunEnd(JwtChar, t, b + 1);
    var e := TailEnd(t, c);
    TailIsInLanguage(t, c);
    LabelsSplit(t, i, a, b, c, e);
  }

  lemma {:induction false} TailIsInLanguage(t: string, i: nat)
    requires i <= |t|
    ensures JwtTail(t[i..TailEnd(t, i)])
    decreases |t| - i
  {
    var e := TailEnd(t, i);
    if i < |t| && t[i] == '.' && RunEnd(JwtChar, t, i + 1) > i + 1 {
      var n := RunEnd(JwtChar, t, i + 1);
      TailIsInLanguage(t, n);
      AllSlice(JwtChar, t, i + 1, n);
      var w := t[i..e];
      assert w[1..n - i] == t[i + 1..n] && w[n - i..] == t[n..e];
    }
  }

  /** The matcher misses nothing: where the shape begins, a match begins, and it is at least as long. */
  lemma LanguageIsMatched(p: Pattern, t: string, i: nat, j: nat)
    requires TokenAt(p, t, i, j)
    ensures MatchEnd(p, t, i).Some? && j <= MatchEnd(p, t, i).value
  {
    match p
    case SlackToken => SlackIsMatched(t, i, j);
    case BearerToken => BearerIsMatched(t, i, j);
    case JwtToken => JwtIsMatched(t, i, j);
  }

  lemma SlackIsMatched(t: string, i: nat, j: nat)
    requires i <= j <= |t| && IsSlack(t[i..j])
    ensures MatchEnd(SlackToken, t, i).Some? && j <= MatchEnd(SlackToken, t, i).value
  {
    SliceAll(TokenChar, t, i, j, 5, j - i);
    RunReaches(TokenChar, t, i + 5, j);
  }

  lemma BearerIsMatched(t: string, i: nat, j: nat)
    requires i <= j <= |t| && IsBearer(t[i..j])
    ensures MatchEnd(BearerToken, t, i).Some? && j <= MatchEnd(BearerToken, t, i).value
  {
    var w := t[i..j];
    var m :| BearerSplit(w, m);
    SliceAll(SpaceChar, t, i, j, 6, m);
    SliceAll(BearerChar, t, i, j, m, j - i);
    assert BearerChar(t[i + m]);
    RunStops(SpaceChar, t, i + 6, i + m);
    RunReaches(BearerChar, t, i + m, j);
  }

  lemma JwtIsMatched(t: string, i: nat, j: nat)
    requires i <= j <= |t| && IsJwt(t[i..j])
    ensures MatchEnd(JwtToken, t, i).Some? && j <= MatchEnd(JwtToken, t, i).value
  {
    var a: nat, b: nat, c: nat :| JwtSplit(t[i..j], a, b, c);
    SplitLabels(t, i, j, a, b, c);
    LabelsMatched(t, i, i + a, i + b, i + c, j);
  }

  lemma LabelsMatched(t: string, i: nat, a: nat, b: nat, c: nat, j: nat)
    requires Labels(t, i, a, b, c, j)
    ensures MatchEnd(JwtToken, t, i).Some? && j <= MatchEnd(JwtToken, t, i).value
  {
    RunStops(JwtChar, t, i, a);
    RunStops(JwtChar, t, a + 1, b);
    RunReaches(JwtChar, t, b + 1, c);
    LabelsReach(t, b + 1, c, j);
  }

  /** The last label and the tail, wherever a split may have cut the last label. */
  lemma {:induction false} LabelsReach(t: string, start: nat, c: nat, j: nat)
    requires start <= c <= j <= |t| && (forall k | start <= k < c :: JwtChar(t[k]))
    requires JwtTail(t[c..j])
    ensures j <= TailEnd(t, RunEnd(JwtChar, t, start))
    decreases j - c
  {
    var w := t[c..j];
    if w == "" {
      RunReaches(JwtChar, t, start, c);
    } else {
      var n: nat :| 2 <= n <= |w| && w[0] == '.' && All(JwtChar, w[1..n]) && JwtTail(w[n..]);
      assert t[c] == '.';
      SliceAll(JwtChar, t, c, j, 1, n);
      assert w[n..] == t[c + n..j];
      LabelsReach(t, c + 1, c + n, j);
      RunStops(JwtChar, t, start, c);
      NextLabel(t, c, c + n);
    }
  }

  lemma NextLabel(t: string, c: nat, e: nat)
    requires c + 1 < e <= |t| && t[c] == '.' && forall k | c + 1 <= k < e :: JwtChar(t[k])
    ensures TailEnd(t, c) == TailEnd(t, RunEnd(JwtChar, t, c + 1))
  {
    RunReaches(JwtChar, t, c + 1, e);
  }

  /** No token shape is short, and none contains a bracket. */
  lemma TokenIsPlain(p: Pattern, w: string)
    requires InLanguage(p, w)
    ensures |w| >= 13 && '[' !in w && ']' !in w
  {
    match p
    case SlackToken => assert w == w[..5] + w[5..];
    case BearerToken =>
      var m :| BearerSplit(w, m);
      assert w == w[..6] + w[6..m] + w[m..];
    case JwtToken =>
      var a, b, c :| JwtSplit(w, a, b, c);
      TailIsPlain(w[c..]);
      PlainParts(w, a, b, c);
  }

  lemma PlainParts(w: string, a: nat, b: nat, c: nat)
    requires a < b < c <= |w| && w[a] == '.' && w[b] == '.'
    requires All(JwtChar, w[..a]) && All(JwtChar, w[a + 1..b]) && All(JwtChar, w[b + 1..c])
    requires '[' !in w[c..] && ']' !in w[c..]
    ensures '[' !in w && ']' !in w
  {
    forall k | 0 <= k < |w| ensures w[k] != '[' && w[k] != ']' {
      if k < a {
        assert w[k] == w[..a][k];
        assert w[..a][k] in w[..a];
      } else if a < k < b {
        assert w[k] == w[a + 1..b][k - a - 1];
        assert w[a + 1..b][k - a - 1] in w[a + 1..b];
      } else if b < k < c {
        assert w[k] == w[b + 1..c][k - b - 1];
        assert w[b + 1..c][k - b - 1] in w[b + 1..c];
      } else if k >= c {
        assert w[k] == w[c..][k - c];
      }
    }
  }

  lemma {:induction false} TailIsPlain(w: string)
    requires JwtTail(w)
    ensures '[' !in w && ']' !in w
    decreases |w|
  {
    if w != "" {
      var n: nat :| 2 <= n <= |w| && w[0] == '.' && All(JwtChar, w[1..n]) && JwtTail(w[n..]);
      TailIsPlain(w[n..]);
      assert w == ['.'] + w[1..n] + w[n..];
    }
  }

  // ---- The search ----

  /** All matches, leftmost first, none overlapping another. */
  function FindAll(p: Pattern, t: string, from: nat): (spans: seq<Span>)
    requires from <= |t|
    ensures forall s | s in spans :: from <= s.start < s.end <= |t|
    decreases |t| - from
  {
    if from == |t| then []
    else
      match MatchEnd(p, t, from)
      case Some(e) => [Span(from, e)] + FindAll(p, t, e)
      case None => FindAll(p, t, from + 1)
  }

  predicate Covers(s: Span, k: int) {
    s.start <= k < s.end
  }

  /** Whatever part of the text has the shape, the search returns a match over its first character. */
  lemma {:induction false} SearchHits(p: Pattern, t: string, from: nat, i: nat, j: nat)
    requires from <= i && TokenAt(p, t, i, j)
    ensures exists s :: s in FindAll(p, t, from) && Covers(s, i)
    decreases |t| - from
  {
    LanguageIsMatched(p, t, i, j);
    if MatchEnd(p, t, from).Some? {
      var e := MatchEnd(p, t, from).value;
      if e <= i {
        SearchHits(p, t, e, i, j);
        var s :| s in FindAll(p, t, e) && Covers(s, i);
        assert s in FindAll(p, t, from);
      } else {
        assert Covers(Span(from, e), i) && FindAll(p, t, from)[0] == Span(from, e);
      }
    } else {
      SearchHits(p, t, from + 1, i, j);
    }
  }

  /** Every match of the search has the shape. */
  lemma {:induction false} SearchFindsTokens(p: Pattern, t: string, from: nat, s: Span)
    requires from <= |t| && s in FindAll(p, t, from)
    ensures TokenAt(p, t, s.start, s.end)
    decreases |t| - from
  {
    if MatchEnd(p, t, from).Some? {
      var e := MatchEnd(p, t, from).value;
      if s == Span(from, e) {
        MatchIsInLanguage(p, t, from);
      } else {
        SearchFindsTokens(p, t, e, s);
      }
    } else {
      SearchFindsTokens(p, t, from + 1, s);
    }
  }
}
