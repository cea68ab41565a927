/**
  The bounded top lists of internal/diskprofile/scan.go: append, and once the buffer passes twice
  the limit, sort it and cut it back to the limit.
 */
module TopEntries {
  import opened StringOrder
  import opened Common

  datatype Kind = Directory | File | Symlink | Other

  datatype Bytes = Bytes(logical: nat, disk: nat)

  datatype Note = Clean | Canceled | OutsideFileSystem | SymlinkNotFollowed | MaxDepthReached | ReadDirFailed

  /** An entry without its children, which is what the top lists hold. */
  datatype Row = Row(
    path: string, kind: Kind, own: Bytes, below: Bytes, subtree: Bytes,
    duplicate: bool, childrenOmitted: nat, note: Note)

  const DEFAULT_LIMIT := 20

  /** Larger subtrees rank first, equal ones by path. */
  predicate Ranks(a: Row, b: Row) {
    if a.subtree.logical == b.subtree.logical then Less(a.path, b.path)
    else a.subtree.logical > b.subtree.logical
  }

  function Insert(x: Row, s: seq<Row>): seq<Row> {
    if s == [] then [x]
    else if Ranks(x, s[0]) then [x] + s
    else [s[0]] + Insert(x, s[1..])
  }

  /** The stable sort by rank: each element lands behind the earlier ones it does not outrank. */
  function Sort(s: seq<Row>): seq<Row> {
    if s == [] then [] else Insert(s[|s| - 1], Sort(s[..|s| - 1]))
  }

  function Take(k: nat, s: seq<Row>): seq<Row> {
    if |s| <= k then s else s[..k]
  }

  function EffectiveLimit(limit: int): (k: nat) {
    if limit <= 0 then DEFAULT_LIMIT else limit
  }

  function LimitEntries(entries: seq<Row>, limit: int): seq<Row> {
    Take(EffectiveLimit(limit), Sort(entries))
  }

  function RetainTopEntry(entries: seq<Row>, entry: Row, limit: int): seq<Row> {
    var appended := entries + [entry];
    if |appended| <= EffectiveLimit(limit) * 2 then appended else LimitEntries(appended, limit)
  }

  // ---- The sort is the ranking ----

  ghost predicate InRankOrder(s: seq<Row>) {
    forall i, j | 0 <= i < j < |s| :: !Ranks(s[j], s[i])
  }

  ghost predicate DistinctKeys(s: seq<Row>) {
    forall i, j | 0 <= i < j < |s| :: Ranks(s[i], s[j]) || Ranks(s[j], s[i])
  }

  lemma RanksTransitive(a: Row, b: Row, c: Row)
    requires Ranks(a, b) && Ranks(b, c)
    ensures Ranks(a, c)
  {
    if a.subtree.logical == c.subtree.logical {
      LessTransitive(a.path, b.path, c.path);
    }
  }

  lemma RanksAsymmetric(a: Row, b: Row)
    requires Ranks(a, b)
    ensures !Ranks(b, a)
  {
    if a.subtree.logical == b.subtree.logical {
      LessAsymmetric(a.path, b.path);
    }
  }

  /** What does not rank below b does not rank below anything b outranks or ties with. */
  lemma NotRanksTransitive(a: Row, b: Row, c: Row)
    requires !Ranks(b, a) && !Ranks(c, b)
    ensures !Ranks(c, a)
  {
    if Ranks(c, a) {
      LessTotal(b.path, a.path);
      LessTotal(c.path, b.path);
      if Ranks(a, b) {
        RanksTransitive(c, a, b);
      }
    }
  }

  lemma {:induction false} InsertKeeps(x: Row, s: seq<Row>)
    ensures multiset(Insert(x, s)) == multiset(s) + multiset{x}
    ensures |Insert(x, s)| == |s| + 1
  {
    if s != [] {
      assert s == [s[0]] + s[1..];
      InsertKeeps(x, s[1..]);
    }
  }

  lemma {:induction false} InsertInOrder(x: Row, s: seq<Row>)
    requires InRankOrder(s)
    ensures InRankOrder(Insert(x, s))
  {
    if s != [] {
      if Ranks(x, s[0]) {
        RanksAsymmetric(x, s[0]);
        forall j | 0 <= j < |s| ensures !Ranks(s[j], x) {
          if j > 0 { NotRanksTransitive(x, s[0], s[j]); }
        }
      } else {
        InsertInOrder(x, s[1..]);
        var rest := Insert(x, s[1..]);
        InsertKeeps(x, s[1..]);
        forall j | 0 <= j < |rest| ensures !Ranks(rest[j], s[0]) {
          assert rest[j] in multiset(s[1..]) + multiset{x};
        }
      }
    }
  }

  lemma {:induction false} SortRanks(s: seq<Row>)
    ensures InRankOrder(Sort(s))
    ensures multiset(Sort(s)) == multiset(s)
    ensures |Sort(s)| == |s|
  {
    if s != [] {
      var front, x := s[..|s| - 1], s[|s| - 1];
      assert s == front + [x];
      SortRanks(front);
      var sorted := Sort(front);
      assert Sort(s) == Insert(x, sorted);
      InsertKeeps(x, sorted);
      assert InRankOrder(Insert(x, sorted)) by { InsertInOrder(x, sorted); }
    }
  }

  lemma {:induction false} InsertAtEnd(x: Row, s: seq<Row>)
    requires forall i | 0 <= i < |s| :: !Ranks(x, s[i])
    ensures Insert(x, s) == s + [x]
  {
    if s != [] {
      InsertAtEnd(x, s[1..]);
    }
  }

  lemma {:induction false} SortOfSorted(s: seq<Row>)
    requires InRankOrder(s)
    ensures Sort(s) == s
  {
    if s != [] {
      SortOfSorted(s[..|s| - 1]);
      InsertAtEnd(s[|s| - 1], s[..|s| - 1]);
    }
  }

  lemma SameBest(s: seq<Row>, t: seq<Row>)
    requires InRankOrder(s) && InRankOrder(t) && DistinctKeys(s)
    requires multiset(s) == multiset(t) && |s| > 0 && |t| > 0
    ensures s[0] == t[0]
  {
    assert s[0] in multiset(t) && t[0] in multiset(s);
    var i :| 0 <= i < |t| && t[i] == s[0];
    var j :| 0 <= j < |s| && s[j] == t[0];
    assert i > 0 ==> !Ranks(t[i], t[0]);
    assert j > 0 ==> !Ranks(s[j], s[0]);
  }

  /** With distinct (bytes, path) keys there is only one ranking, whatever sort produced it. */
  lemma {:induction false} RankingUnique(s: seq<Row>, t: seq<Row>)
    requires InRankOrder(s) && InRankOrder(t) && DistinctKeys(s)
    requires multiset(s) == multiset(t)
    ensures s == t
  {
    assert |s| == |multiset(s)| == |multiset(t)| == |t|;
    if s != [] {
      SameBest(s, t);
      TailMultiset(s);
      TailMultiset(t);
      TailInOrder(s);
      TailInOrder(t);
      RankingUnique(s[1..], t[1..]);
      assert s == [s[0]] + s[1..] && t == [t[0]] + t[1..];
    }
  }

  lemma TailMultiset(s: seq<Row>)
    requires |s| > 0
    ensures multiset(s[1..]) == multiset(s) - multiset{s[0]}
  {
    assert s == [s[0]] + s[1..];
  }

  lemma TailInOrder(s: seq<Row>)
    requires |s| > 0 && InRankOrder(s)
    ensures InRankOrder(s[1..])
    ensures DistinctKeys(s) ==> DistinctKeys(s[1..])
  {
    var t := s[1..];
    if DistinctKeys(s) {
      forall i, j | 0 <= i < j < |t| ensures Ranks(t[i], t[j]) || Ranks(t[j], t[i]) {
        assert t[i] == s[i + 1] && t[j] == s[j + 1];
      }
    }
    forall i, j | 0 <= i < j < |t| ensures !Ranks(t[j], t[i]) {
      assert t[i] == s[i + 1] && t[j] == s[j + 1];
    }
  }

  // ---- The bounded buffer ----

  lemma TakeCons(k: nat, x: Row, s: seq<Row>)
    requires k > 0
    ensures Take(k, [x] + s) == [x] + Take(k - 1, s)
  {
  }

  /** Cutting to k before an insertion loses nothing that survives the cut to k after it. */
  lemma {:induction false} TakeInsert(k: nat, x: Row, s: seq<Row>)
    ensures Take(k, Insert(x, s)) == Take(k, Insert(x, Take(k, s)))
  {
    InsertKeeps(x, s);
    InsertKeeps(x, Take(k, s));
    if k > 0 && |s| > k && !Ranks(x, s[0]) {
      var rest := s[1..];
      TakeInsert(k - 1, x, rest);
      InsertKeeps(x, rest);
      InsertKeeps(x, rest[..k - 1]);
      assert s[..k][0] == s[0] && s[..k][1..] == rest[..k - 1];
      assert Insert(x, s[..k]) == [s[0]] + Insert(x, rest[..k - 1]);
      TakeCons(k, s[0], Insert(x, rest));
      TakeCons(k, s[0], Insert(x, rest[..k - 1]));
    }
  }

  lemma TopAppend(k: nat, s: seq<Row>, t: seq<Row>, x: Row)
    requires Take(k, Sort(s)) == Take(k, Sort(t))
    ensures Take(k, Sort(s + [x])) == Take(k, Sort(t + [x]))
  {
    assert (s + [x])[..|s|] == s && (t + [x])[..|t|] == t;
    TakeInsert(k, x, Sort(s));
    TakeInsert(k, x, Sort(t));
  }

  lemma TopIdempotent(k: nat, s: seq<Row>)
    ensures Take(k, Sort(Take(k, Sort(s)))) == Take(k, Sort(s))
  {
    SortRanks(s);
    SortOfSorted(Take(k, Sort(s)));
  }

  /** A buffer stands for everything offered so far when it yields the same top entries. */
  ghost predicate StandsFor(buffer: seq<Row>, offered: seq<Row>, limit: int) {
    && |buffer| <= 2 * EffectiveLimit(limit)
    && LimitEntries(buffer, limit) == LimitEntries(offered, limit)
  }

  lemma RetainStandsFor(buffer: seq<Row>, offered: seq<Row>, entry: Row, limit: int)
    requires StandsFor(buffer, offered, limit)
    ensures StandsFor(RetainTopEntry(buffer, entry, limit), offered + [entry], limit)
  {
    var k := EffectiveLimit(limit);
    TopAppend(k, buffer, offered, entry);
    TopIdempotent(k, buffer + [entry]);
  }

  function RetainAll(offered: seq<Row>, limit: int): seq<Row> {
    if offered == [] then []
    else RetainTopEntry(RetainAll(offered[..|offered| - 1], limit), offered[|offered| - 1], limit)
  }

  /** For every sequence of entries: the amortised buffer stays within twice the limit, and its
      final cut is the cut of the full ranking. */
  lemma {:induction false} BoundedBufferIsExact(offered: seq<Row>, limit: int)
    ensures |RetainAll(offered, limit)| <= 2 * EffectiveLimit(limit)
    ensures LimitEntries(RetainAll(offered, limit), limit) == LimitEntries(offered, limit)
  {
    if offered != [] {
      var front := offered[..|offered| - 1];
      BoundedBufferIsExact(front, limit);
      RetainStandsFor(RetainAll(front, limit), front, offered[|offered| - 1], limit);
      assert offered == front + [offered[|offered| - 1]];
    }
  }

  /** An element that a cut holds less often than the whole lies behind the cut. */
  lemma CutOff(all: seq<Row>, k: nat, x: Row)
    requires k <= |all| && multiset(all[..k])[x] < multiset(all)[x]
    ensures x in all[k..]
  {
    assert all == all[..k] + all[k..];
    assert multiset(all) == multiset(all[..k]) + multiset(all[k..]);
  }

  /** The cut holds exactly the best entries: everything left out is outranked or tied by all of it. */
  lemma LimitKeepsTheBest(offered: seq<Row>, limit: int, kept: Row, dropped: Row)
    requires kept in LimitEntries(offered, limit)
    requires dropped in offered && multiset(LimitEntries(offered, limit))[dropped] < multiset(offered)[dropped]
    ensures !Ranks(dropped, kept)
  {
    var all, m := Sort(offered), |LimitEntries(offered, limit)|;
    SortRanks(offered);
    assert LimitEntries(offered, limit) == all[..m];
    CutOff(all, m, dropped);
    var i :| 0 <= i < m && all[i] == kept;
    var j :| m <= j < |all| && all[j] == dropped;
  }
}
