/**
  The list operation of internal/browserfacade/facade.go: pages read in chunks of at most 100 within a
  scan bound of 1000, first occurrences kept across pages, one window of them returned.
  Records stand for their own digests: equal digests mean equal records.
 */
module FacadeList {
  import opened Common

  const MAX_SCANNED: nat := 1000
  const CHUNK: nat := 100

  datatype Refusal = ArgumentInvalid | PaginationBound | InconsistentBounds | TransportFailed | ItemRefused

  datatype Kind = SinglePage | Advancing

  datatype HasMore = Yes | No | Unknown

  /** The decoded wire response of one extraction; its numbers are whatever the browser sent. */
  datatype Response<I> = Response(matched: int, skip: int, take: int, returned: int, items: seq<I>)

  /** The browser as the loop sees it. `page` counts the advances made so far, so the content may change
      with each one; no two extractions of a run have the same page and skip, so any answers at all fit. */
  datatype Site<!I, R> = Site(
    kind: Kind,
    wire: (nat, nat, nat) -> Result<Response<I>, Refusal>,
    clean: I -> Result<R, Refusal>,
    advance: nat -> Result<bool, Refusal>)

  // ---- Extraction ----

  function CheckBounds<I>(w: Response<I>, skip: nat, take: nat): (r: Result<Response<I>, Refusal>)
    ensures r.Ok? <==> w.skip == skip && w.take == take && w.returned == |w.items| <= take && w.returned <= w.matched
    ensures r.Ok? ==> r.value == w
  {
    if w.skip != skip || w.take != take || w.returned != |w.items| || w.matched < w.returned || w.returned > take
    then Err(InconsistentBounds)
    else Ok(w)
  }

  function Extract<I, R>(site: Site<I, R>, page: nat, skip: nat, take: nat): Result<Response<I>, Refusal> {
    var w := site.wire(page, skip, take);
    if w.Err? then w else CheckBounds(w.value, skip, take)
  }

  /** sanitizeItems: one record an item, or the first refusal. */
  function CleanAll<I, R>(items: seq<I>, clean: I -> Result<R, Refusal>): (r: Result<seq<R>, Refusal>)
    ensures r.Ok? ==> |r.value| == |items|
  {
    if items == [] then Ok([])
    else
      var first := clean(items[0]);
      if first.Err? then Err(first.error)
      else
        var rest := CleanAll(items[1..], clean);
        if rest.Err? then rest else Ok([first.value] + rest.value)
  }

  // ---- One page ----

  datatype PageRead<R> = PageRead(items: seq<R>, matched: int, scanned: nat)

  /** The page's chunks from pageSkip on. */
  function ReadPage<I, R>(site: Site<I, R>, page: nat, pageSkip: nat, s: PageRead<R>): Result<PageRead<R>, Refusal>
    decreases MAX_SCANNED - s.scanned
  {
    if s.scanned >= MAX_SCANNED then Ok(s)
    else
      var take := Min(CHUNK, MAX_SCANNED - s.scanned);
      var response := Extract(site, page, pageSkip, take);
      if response.Err? then Err(response.error)
      else
        var records := CleanAll(response.value.items, site.clean);
        if records.Err? then Err(records.error)
        else
          var next := PageRead(s.items + records.value, response.value.matched, s.scanned + |response.value.items|);
          if LastChunk(response.value, pageSkip) then Ok(next) else ReadPage(site, page, pageSkip + CHUNK, next)
  }

  predicate LastChunk<I>(r: Response<I>, pageSkip: nat) {
    r.returned == 0 || pageSkip + r.returned >= r.matched || r.returned < r.take
  }

  function ReadWholePage<I, R>(site: Site<I, R>, page: nat, scanned: nat): Result<PageRead<R>, Refusal> {
    ReadPage(site, page, 0, PageRead([], 0, scanned))
  }

  /** Every item read is counted, and the scan bound is never passed. */
  lemma {:induction false} ReadPageCounts<I, R>(site: Site<I, R>, page: nat, pageSkip: nat, s: PageRead<R>)
    requires s.scanned <= MAX_SCANNED
    ensures var r := ReadPage(site, page, pageSkip, s);
      r.Ok? ==> r.value.scanned <= MAX_SCANNED && r.value.scanned - |r.value.items| == s.scanned - |s.items|
    decreases MAX_SCANNED - s.scanned
  {
    if s.scanned < MAX_SCANNED {
      var take := Min(CHUNK, MAX_SCANNED - s.scanned);
      var response := Extract(site, page, pageSkip, take);
      if response.Ok? {
        var records := CleanAll(response.value.items, site.clean);
        if records.Ok? && !LastChunk(response.value, pageSkip) {
          var next := PageRead(s.items + records.value, response.value.matched, s.scanned + |response.value.items|);
          ReadPageCounts(site, page, pageSkip + CHUNK, next);
        }
      }
    }
  }

  /** The response to the i-th request for a page, when that many items were scanned before the page. */
  function Asked<I, R>(site: Site<I, R>, page: nat, scanned: nat, i: nat): Result<Response<I>, Refusal> {
    var before := scanned + CHUNK * i;
    Extract(site, page, CHUNK * i, if before < MAX_SCANNED then Min(CHUNK, MAX_SCANNED - before) else 0)
  }

  /** What the browser says stands at a position of the page, cleaned, is what stands there in the items. */
  ghost predicate ChunkRead<I, R>(site: Site<I, R>, page: nat, scanned: nat, i: nat, items: seq<R>) {
    && Asked(site, page, scanned, i).Ok?
    && var w := Asked(site, page, scanned, i).value;
    && w.skip == CHUNK * i && w.returned == |w.items| && w.skip + |w.items| <= |items|
    && forall j | 0 <= j < |w.items| :: site.clean(w.items[j]) == Ok(items[CHUNK * i + j])
  }

  /** All chunks before the k-th were full, and more was to come. */
  ghost predicate FullChunks<I, R>(site: Site<I, R>, page: nat, scanned: nat, k: nat, items: seq<R>) {
    forall i | 0 <= i < k ::
      ChunkRead(site, page, scanned, i, items) && Asked(site, page, scanned, i).value.returned == CHUNK
  }

  /** The k-th was the last: nothing is left behind it, or the scan bound is reached. */
  ghost predicate LastRead<I, R>(site: Site<I, R>, page: nat, scanned: nat, k: nat, r: PageRead<R>) {
    && ChunkRead(site, page, scanned, k, r.items)
    && var w := Asked(site, page, scanned, k).value;
    && |r.items| == CHUNK * k + |w.items| && r.matched == w.matched
    && (LastChunk(w, CHUNK * k) || r.scanned == MAX_SCANNED)
  }

  lemma {:induction false} CleanedItems<I, R>(items: seq<I>, clean: I -> Result<R, Refusal>, j: nat)
    requires CleanAll(items, clean).Ok? && j < |items|
    ensures clean(items[j]) == Ok(CleanAll(items, clean).value[j])
  {
    if j > 0 {
      CleanedItems(items[1..], clean, j - 1);
    }
  }

  lemma ChunkKeeps<I, R>(site: Site<I, R>, page: nat, scanned: nat, k: nat, items: seq<R>, more: seq<R>)
    requires FullChunks(site, page, scanned, k, items)
    ensures FullChunks(site, page, scanned, k, items + more)
  {
    forall i | 0 <= i < k ensures ChunkRead(site, page, scanned, i, items + more) {
      assert ChunkRead(site, page, scanned, i, items);
    }
  }

  lemma NextChunk<I, R>(site: Site<I, R>, page: nat, scanned: nat, k: nat, items: seq<R>)
    requires Asked(site, page, scanned, k).Ok? && |items| == CHUNK * k
    requires CleanAll(Asked(site, page, scanned, k).value.items, site.clean).Ok?
    ensures var w := Asked(site, page, scanned, k).value;
      ChunkRead(site, page, scanned, k, items + CleanAll(w.items, site.clean).value)
  {
    var w := Asked(site, page, scanned, k).value;
    forall j | 0 <= j < |w.items| ensures site.clean(w.items[j]) == Ok(CleanAll(w.items, site.clean).value[j]) {
      CleanedItems(w.items, site.clean, j);
    }
  }

  /** One turn of the chunk loop. */
  lemma ReadTurn<I, R>(site: Site<I, R>, page: nat, scanned: nat, k: nat, s: PageRead<R>) returns (next: PageRead<R>)
    requires s.scanned == scanned + CHUNK * k < MAX_SCANNED && ReadPage(site, page, CHUNK * k, s).Ok?
    ensures Asked(site, page, scanned, k).Ok? && CleanAll(Asked(site, page, scanned, k).value.items, site.clean).Ok?
    ensures var w := Asked(site, page, scanned, k).value;
      && next == PageRead(s.items + CleanAll(w.items, site.clean).value, w.matched, s.scanned + |w.items|)
      && w.returned == |w.items| <= w.take == Min(CHUNK, MAX_SCANNED - s.scanned)
      && ReadPage(site, page, CHUNK * k, s)
        == if LastChunk(w, CHUNK * k) then Ok(next) else ReadPage(site, page, CHUNK * k + CHUNK, next)
  {
    var w := Asked(site, page, scanned, k).value;
    next := PageRead(s.items + CleanAll(w.items, site.clean).value, w.matched, s.scanned + |w.items|);
  }

  lemma {:induction false} ChunksOfPage<I, R>(site: Site<I, R>, page: nat, scanned: nat, k: nat, s: PageRead<R>)
    returns (last: nat)
    requires |s.items| == CHUNK * k && s.scanned == scanned + CHUNK * k < MAX_SCANNED
    requires FullChunks(site, page, scanned, k, s.items) && ReadPage(site, page, CHUNK * k, s).Ok?
    ensures var r := ReadPage(site, page, CHUNK * k, s).value;
      FullChunks(site, page, scanned, last, r.items) && LastRead(site, page, scanned, last, r)
    decreases MAX_SCANNED - s.scanned
  {
    var next := ReadTurn(site, page, scanned, k, s);
    var w := Asked(site, page, scanned, k).value;
    NextChunk(site, page, scanned, k, s.items);
    ChunkKeeps(site, page, scanned, k, s.items, CleanAll(w.items, site.clean).value);
    if LastChunk(w, CHUNK * k) || next.scanned == MAX_SCANNED {
      last := k;
    } else {
      FullMore(site, page, scanned, k, next.items);
      last := ChunksOfPage(site, page, scanned, k + 1, next);
    }
  }

  lemma FullMore<I, R>(site: Site<I, R>, page: nat, scanned: nat, k: nat, items: seq<R>)
    requires FullChunks(site, page, scanned, k, items) && ChunkRead(site, page, scanned, k, items)
    requires Asked(site, page, scanned, k).value.returned == CHUNK
    ensures FullChunks(site, page, scanned, k + 1, items)
  {
  }

  /** A page is read without gaps or overlaps: every chunk but the last is full, the i-th one stands at
      position 100 * i on the page and in the items read, and the last one ends the page or the scan. */
  lemma PageIsContiguous<I, R>(site: Site<I, R>, page: nat, scanned: nat) returns (last: nat)
    requires scanned < MAX_SCANNED && ReadWholePage(site, page, scanned).Ok?
    ensures var r := ReadWholePage(site, page, scanned).value;
      FullChunks(site, page, scanned, last, r.items) && LastRead(site, page, scanned, last, r)
  {
    last := ChunksOfPage(site, page, scanned, 0, PageRead([], 0, scanned));
  }

  // ---- First occurrences ----

  function Dedup<R(==)>(s: seq<R>): seq<R> {
    if s == [] then []
    else
      var front, last := s[..|s| - 1], s[|s| - 1];
      if last in front then Dedup(front) else Dedup(front) + [last]
  }

  function Flatten<R>(pages: seq<seq<R>>): seq<R> {
    if pages == [] then [] else Flatten(pages[..|pages| - 1]) + pages[|pages| - 1]
  }

  lemma DedupOneMore<R>(s: seq<R>, x: R)
    ensures Dedup(s + [x]) == if x in s then Dedup(s) else Dedup(s) + [x]
  {
    assert (s + [x])[..|s|] == s;
  }

  lemma FlattenOneMore<R>(pages: seq<seq<R>>, page: seq<R>)
    ensures Flatten(pages + [page]) == Flatten(pages) + page
  {
    assert (pages + [page])[..|pages|] == pages;
  }

  ghost predicate Distinct<R>(s: seq<R>) {
    forall i, j | 0 <= i < j < |s| :: s[i] != s[j]
  }

  /** Where x first occurs. */
  function FirstIndex<R(==)>(s: seq<R>, x: R): (i: nat)
    requires x in s
    ensures i < |s| && s[i] == x && x !in s[..i]
  {
    if s[0] == x then 0
    else
      assert s == [s[0]] + s[1..];
      var i := 1 + FirstIndex(s[1..], x);
      assert s[..i] == [s[0]] + s[1..][..i - 1];
      i
  }

  /** Dedup keeps every record once, in the order of first occurrence. */
  lemma {:induction false} DedupKeepsFirsts<R>(s: seq<R>)
    ensures Distinct(Dedup(s))
    ensures forall x :: x in Dedup(s) <==> x in s
    ensures forall i, j | 0 <= i < j < |Dedup(s)| :: FirstIndex(s, Dedup(s)[i]) < FirstIndex(s, Dedup(s)[j])
  {
    if s != [] {
      var front, last := s[..|s| - 1], s[|s| - 1];
      DedupKeepsFirsts(front);
      assert s == front + [last];
      var d := Dedup(s);
      forall x | x in front ensures FirstIndex(s, x) == FirstIndex(front, x) {
        FirstIndexOnce(s, x, FirstIndex(front, x));
      }
      forall i, j | 0 <= i < j < |d| ensures FirstIndex(s, d[i]) < FirstIndex(s, d[j]) {
        assert d[i] == Dedup(front)[i] && Dedup(front)[i] in Dedup(front);
        if d[j] !in front {
          FirstIndexOnce(s, last, |front|);
        }
      }
    }
  }

  lemma FirstIndexOnce<R>(s: seq<R>, x: R, i: nat)
    requires i < |s| && s[i] == x && x !in s[..i]
    ensures FirstIndex(s, x) == i
  {
    var f := FirstIndex(s, x);
    assert forall k | 0 <= k < f :: s[k] == s[..f][k];
    assert forall k | 0 <= k < i :: s[k] == s[..i][k];
  }

  lemma LastApart<R>(s: seq<R>, t: seq<R>)
    requires t != []
    ensures s + t == s + t[..|t| - 1] + [t[|t| - 1]] && t == t[..|t| - 1] + [t[|t| - 1]]
  {
  }

  lemma {:induction false} DedupAbsorbs<R>(s: seq<R>, t: seq<R>)
    requires forall x | x in t :: x in s
    ensures Dedup(s + t) == Dedup(s)
  {
    if t == [] {
      assert s + t == s;
    } else {
      var front, last := t[..|t| - 1], t[|t| - 1];
      LastApart(s, t);
      assert last in t && forall x | x in front :: x in t;
      DedupAbsorbs(s, front);
      DedupOneMore(s + front, last);
    }
  }

  lemma {:induction false} DedupPrefix<R>(s: seq<R>, t: seq<R>)
    ensures Dedup(s) <= Dedup(s + t)
  {
    if t == [] {
      assert s + t == s;
    } else {
      var front := t[..|t| - 1];
      LastApart(s, t);
      DedupPrefix(s, front);
      DedupOneMore(s + front, t[|t| - 1]);
    }
  }

  lemma {:induction false} DedupShortens<R>(s: seq<R>)
    ensures |Dedup(s)| <= |s| && (s != [] ==> Dedup(s) != [])
  {
    if s != [] {
      DedupShortens(s[..|s| - 1]);
    }
  }

  lemma {:induction false} PageInFlatten<R>(pages: seq<seq<R>>, page: seq<R>)
    requires page in pages
    ensures forall x | x in page :: x in Flatten(pages)
  {
    var front, last := pages[..|pages| - 1], pages[|pages| - 1];
    if page != last {
      assert pages == front + [last];
      PageInFlatten(front, page);
    }
  }

  function Window<R>(s: seq<R>, skip: nat, take: nat): seq<R> {
    var start := Min(skip, |s|);
    s[start..Min(start + take, |s|)]
  }

  // ---- The whole browse ----

  /** Every page read, the number of items scanned, and the answer. */
  datatype Outcome<R> = Outcome(pages: seq<seq<R>>, scanned: nat, hasMore: HasMore)

  datatype Verdict = Stop(hasMore: HasMore) | AskToAdvance

  /** What is decided once a page has been read. */
  function Judge<R(==)>(pages: seq<seq<R>>, read: PageRead<R>, kind: Kind, wanted: nat, maxPages: nat): Verdict {
    var have := |Dedup(Flatten(pages + [read.items]))|;
    if read.items in pages then Stop(Unknown)
    else if have >= wanted then
      Stop(if have > wanted then Yes else if kind == SinglePage then No else Unknown)
    else if read.matched > |read.items| then Stop(Yes)
    else if read.scanned >= MAX_SCANNED then Stop(Unknown)
    else if kind == SinglePage then Stop(No)
    else if |pages| + 1 >= maxPages then Stop(Unknown)
    else AskToAdvance
  }

  function Browse<I, R(==)>(site: Site<I, R>, wanted: nat, maxPages: nat, pages: seq<seq<R>>, scanned: nat)
    : Result<Outcome<R>, Refusal>
    decreases maxPages - |pages|
  {
    if |pages| >= maxPages || scanned >= MAX_SCANNED then Ok(Outcome(pages, scanned, Unknown))
    else
      var read := ReadWholePage(site, |pages|, scanned);
      if read.Err? then Err(read.error)
      else
        var all, verdict := pages + [read.value.items], Judge(pages, read.value, site.kind, wanted, maxPages);
        if verdict.Stop? then Ok(Outcome(all, read.value.scanned, verdict.hasMore))
        else
          var advanced := site.advance(|pages|);
          if advanced.Err? then Err(advanced.error)
          else if !advanced.value then Ok(Outcome(all, read.value.scanned, No))
          else Browse(site, wanted, maxPages, all, read.value.scanned)
  }

  function ListArguments(skip: int, take: int, maxPages: int, adapterPages: nat): Option<Refusal> {
    if !(0 <= skip < MAX_SCANNED) || !(1 <= take <= 100) then Some(ArgumentInvalid)
    else if skip + take > MAX_SCANNED then Some(PaginationBound)
    else if !(1 <= maxPages <= adapterPages) then Some(ArgumentInvalid)
    else None
  }

  datatype ListResult<R> = ListResult(items: seq<R>, pagesRead: nat, scanned: nat, hasMore: HasMore)

  /** What the loop is left with: all first occurrences, and the three counters. */
  datatype Gathering<R> = Gathering(collected: seq<R>, pagesRead: nat, scanned: nat, hasMore: HasMore)

  function Gathered<R(==)>(o: Result<Outcome<R>, Refusal>): Result<Gathering<R>, Refusal> {
    if o.Err? then Err(o.error)
    else Ok(Gathering(Dedup(Flatten(o.value.pages)), |o.value.pages|, o.value.scanned, o.value.hasMore))
  }

  function Present<R>(g: Result<Gathering<R>, Refusal>, skip: nat, take: nat): Result<ListResult<R>, Refusal> {
    if g.Err? then Err(g.error)
    else Ok(ListResult(Window(g.value.collected, skip, take), g.value.pagesRead, g.value.scanned, g.value.hasMore))
  }

  /** What list returns, from the pages alone. */
  function ListSpec<I, R(==)>(site: Site<I, R>, skip: nat, take: nat, maxPages: nat): Result<ListResult<R>, Refusal> {
    Present(Gathered(Browse(site, skip + take, maxPages, [], 0)), skip, take)
  }

  // ---- Bounds and contents ----

  /** Scanned items are the items of the pages read, at most 1000, from at most maxPages pages. */
  lemma {:induction false} BrowseBounds<I, R>(site: Site<I, R>, wanted: nat, maxPages: nat, pages: seq<seq<R>>,
                                              scanned: nat)
    requires |pages| <= maxPages && scanned == |Flatten(pages)| <= MAX_SCANNED
    ensures var o := Browse(site, wanted, maxPages, pages, scanned);
      o.Ok? ==>
        && |o.value.pages| <= maxPages && pages <= o.value.pages
        && o.value.scanned == |Flatten(o.value.pages)| <= MAX_SCANNED
    decreases maxPages - |pages|
  {
    if |pages| < maxPages && scanned < MAX_SCANNED {
      var read := ReadWholePage(site, |pages|, scanned);
      ReadPageCounts(site, |pages|, 0, PageRead([], 0, scanned));
      if read.Ok? {
        FlattenOneMore(pages, read.value.items);
        BrowseBounds(site, wanted, maxPages, pages + [read.value.items], read.value.scanned);
      }
    }
  }

  ghost predicate WindowOf<R>(items: seq<R>, take: nat) {
    |items| <= take && Distinct(items)
  }

  /** The result is the window of the first occurrences, distinct, within both bounds. */
  lemma ListIsBoundedWindow<I, R>(site: Site<I, R>, skip: nat, take: nat, maxPages: nat)
    ensures var r := ListSpec(site, skip, take, maxPages);
      r.Ok? ==> r.value.scanned <= MAX_SCANNED && r.value.pagesRead <= maxPages && WindowOf(r.value.items, take)
  {
    BrowseBounds(site, skip + take, maxPages, [], 0);
    var o := Browse(site, skip + take, maxPages, [], 0);
    if o.Ok? {
      DistinctWindow(Flatten(o.value.pages), skip, take);
    }
  }

  lemma DistinctWindow<R>(s: seq<R>, skip: nat, take: nat)
    ensures WindowOf(Window(Dedup(s), skip, take), take)
  {
    DedupKeepsFirsts(s);
  }

  // ---- hasMore on an advancing site ----

  /** "No" was answered because the last page was read to its end and then refused to advance. */
  ghost predicate ReadToTheEnd<I, R>(site: Site<I, R>, o: Outcome<R>, wanted: nat) {
    && o.pages != []
    && var last := |o.pages| - 1;
    && |Dedup(Flatten(o.pages))| < wanted
    && site.advance(last) == Ok(false)
    && ReadToItsEnd(ReadWholePage(site, last, |Flatten(o.pages[..last])|), o.pages[last])
  }

  predicate ReadToItsEnd<R(==)>(read: Result<PageRead<R>, Refusal>, items: seq<R>) {
    read.Ok? && read.value.items == items && read.value.matched <= |items|
  }

  /** One page further, scanned still counts the items of all pages read. */
  lemma OnePageMore<I, R>(site: Site<I, R>, pages: seq<seq<R>>, scanned: nat)
    requires scanned == |Flatten(pages)| <= MAX_SCANNED && ReadWholePage(site, |pages|, scanned).Ok?
    ensures var read := ReadWholePage(site, |pages|, scanned).value;
      var all := pages + [read.items];
      all[..|all| - 1] == pages && read.scanned == |Flatten(all)| <= MAX_SCANNED
  {
    ReadPageCounts(site, |pages|, 0, PageRead([], 0, scanned));
    FlattenOneMore(pages, ReadWholePage(site, |pages|, scanned).value.items);
  }

  /** An advancing site is never stopped with "no", and where it refuses to advance the page was read to its
      end. */
  lemma JudgedNo<I, R>(site: Site<I, R>, wanted: nat, maxPages: nat, pages: seq<seq<R>>, scanned: nat)
    requires site.kind == Advancing && scanned == |Flatten(pages)| <= MAX_SCANNED
    requires ReadWholePage(site, |pages|, scanned).Ok?
    ensures var read := ReadWholePage(site, |pages|, scanned).value;
      var verdict := Judge(pages, read, site.kind, wanted, maxPages);
      var o := Outcome(pages + [read.items], read.scanned, No);
      && verdict != Stop(No)
      && (verdict.AskToAdvance? && site.advance(|pages|) == Ok(false) ==> ReadToTheEnd(site, o, wanted))
  {
    OnePageMore(site, pages, scanned);
  }

  lemma {:induction false} NoMeansRefusedToAdvance<I, R>(site: Site<I, R>, wanted: nat, maxPages: nat,
                                                         pages: seq<seq<R>>, scanned: nat)
    requires site.kind == Advancing && scanned == |Flatten(pages)| <= MAX_SCANNED
    ensures var o := Browse(site, wanted, maxPages, pages, scanned);
      o.Ok? && o.value.hasMore == No ==> ReadToTheEnd(site, o.value, wanted)
    decreases maxPages - |pages|
  {
    if |pages| < maxPages && scanned < MAX_SCANNED {
      var read := ReadWholePage(site, |pages|, scanned);
      if read.Ok? {
        var all := pages + [read.value.items];
        OnePageMore(site, pages, scanned);
        JudgedNo(site, wanted, maxPages, pages, scanned);
        if Judge(pages, read.value, site.kind, wanted, maxPages).AskToAdvance? {
          NoMeansRefusedToAdvance(site, wanted, maxPages, all, read.value.scanned);
        }
      }
    }
  }

  /** "Yes" was answered because more first occurrences were read than the window needs, or because the
      last page holds more matches than were read of it. */
  ghost predicate MoreInSight<I, R>(site: Site<I, R>, o: Outcome<R>, wanted: nat) {
    && o.pages != []
    && var last := |o.pages| - 1;
    && (|Dedup(Flatten(o.pages))| > wanted
        || LeavesMatches(ReadWholePage(site, last, |Flatten(o.pages[..last])|), o.pages[last]))
  }

  predicate LeavesMatches<R(==)>(read: Result<PageRead<R>, Refusal>, items: seq<R>) {
    read.Ok? && read.value.items == items && read.value.matched > |items|
  }

  lemma {:induction false} YesMeansMoreInSight<I, R>(site: Site<I, R>, wanted: nat, maxPages: nat, pages: seq<seq<R>>,
                                                     scanned: nat)
    requires scanned == |Flatten(pages)| <= MAX_SCANNED
    ensures var o := Browse(site, wanted, maxPages, pages, scanned);
      o.Ok? && o.value.hasMore == Yes ==> MoreInSight(site, o.value, wanted)
    decreases maxPages - |pages|
  {
    if |pages| < maxPages && scanned < MAX_SCANNED {
      var read := ReadWholePage(site, |pages|, scanned);
      if read.Ok? {
        var all := pages + [read.value.items];
        OnePageMore(site, pages, scanned);
        if Judge(pages, read.value, site.kind, wanted, maxPages).AskToAdvance? {
          YesMeansMoreInSight(site, wanted, maxPages, all, read.value.scanned);
        }
      }
    }
  }

  // ---- hasMore on one fixed page ----

  /** The site shows one page that holds these items, which clean up to these records. */
  ghost predicate Fixed<I, R>(site: Site<I, R>, items: seq<I>, records: seq<R>) {
    && site.kind == SinglePage
    && |items| == |records|
    && (forall i | 0 <= i < |items| :: site.clean(items[i]) == Ok(records[i]))
    && forall skip: nat, take: nat :: site.wire(0, skip, take) == Ok(Shown(items, skip, take))
  }

  function Shown<I>(items: seq<I>, skip: nat, take: nat): Response<I> {
    var part := Window(items, skip, take);
    Response(|items|, skip, take, |part|, part)
  }

  lemma {:induction false} CleanSlice<I, R>(items: seq<I>, clean: I -> Result<R, Refusal>, records: seq<R>)
    requires |items| == |records|
    requires forall i | 0 <= i < |items| :: clean(items[i]) == Ok(records[i])
    ensures CleanAll(items, clean) == Ok(records)
  {
    if items != [] {
      CleanSlice(items[1..], clean, records[1..]);
      assert records == [records[0]] + records[1..];
    }
  }

  lemma {:induction false} FixedPageRead<I, R>(site: Site<I, R>, items: seq<I>, records: seq<R>, k: nat, s: PageRead<R>)
    requires Fixed(site, items, records)
    requires k <= 10 && CHUNK * k <= |items|
    requires s.items == records[..CHUNK * k] && s.scanned == CHUNK * k && (k == 0 || s.matched == |items|)
    ensures var n := Min(|items|, MAX_SCANNED);
      ReadPage(site, 0, CHUNK * k, s) == Ok(PageRead(records[..n], |items|, n))
    decreases 10 - k
  {
    if k < 10 {
      var end := Min(CHUNK * k + CHUNK, |items|);
      FixedChunk(site, items, records, CHUNK * k);
      if end < |items| {
        FixedPageRead(site, items, records, k + 1, PageRead(records[..end], |items|, end));
      }
    }
  }

  lemma FixedChunk<I, R>(site: Site<I, R>, items: seq<I>, records: seq<R>, skip: nat)
    requires Fixed(site, items, records) && skip <= |items|
    ensures var end, response := Min(skip + CHUNK, |items|), Extract(site, 0, skip, CHUNK);
      && response == Ok(Shown(items, skip, CHUNK))
      && response.value.items == items[skip..end]
      && CleanAll(items[skip..end], site.clean) == Ok(records[skip..end])
      && records[..skip] + records[skip..end] == records[..end]
  {
    var end := Min(skip + CHUNK, |items|);
    CleanSlice(items[skip..end], site.clean, records[skip..end]);
  }

  /** The answer on a fixed page, whatever its length. */
  function FixedAnswer<R(==)>(records: seq<R>, wanted: nat): HasMore {
    var n := Min(|records|, MAX_SCANNED);
    var have := |Dedup(records[..n])|;
    if have >= wanted then (if have > wanted then Yes else No)
    else if |records| > n then Yes
    else if n == MAX_SCANNED then Unknown
    else No
  }

  lemma FixedPageAnswer<I, R>(site: Site<I, R>, items: seq<I>, records: seq<R>, wanted: nat, maxPages: nat)
    requires Fixed(site, items, records) && maxPages >= 1
    ensures Browse(site, wanted, maxPages, [], 0)
      == Ok(Outcome([records[..Min(|records|, MAX_SCANNED)]], Min(|records|, MAX_SCANNED),
        FixedAnswer(records, wanted)))
  {
    var n := Min(|records|, MAX_SCANNED);
    assert records[..0] == [];
    FixedPageRead(site, items, records, 0, PageRead([], 0, 0));
    var page := records[..n];
    FlattenOneMore([], page);
    assert [] + page == page && [] + [page] == [page];
  }

  /** An answer is wrong when it says the opposite of what the whole list holds. */
  predicate Wrong<R(==)>(answer: HasMore, records: seq<R>, wanted: nat) {
    if |Dedup(records)| > wanted then answer == No else answer == Yes
  }

  /** On at most 1000 matches the answer is never wrong, and it is unknown only on exactly 1000. */
  lemma FixedAnswerIsRight<R>(records: seq<R>, wanted: nat)
    requires |records| <= MAX_SCANNED
    ensures !Wrong(FixedAnswer(records, wanted), records, wanted)
    ensures FixedAnswer(records, wanted) == Unknown <==> |records| == MAX_SCANNED && |Dedup(records)| < wanted
  {
    assert records[..|records|] == records;
  }

  /** The general condition: the unscanned tail must not change which side of `wanted` the count is on. */
  lemma FixedAnswerIsRightExactly<R>(records: seq<R>, wanted: nat)
    ensures Wrong(FixedAnswer(records, wanted), records, wanted) <==>
      && |records| > MAX_SCANNED
      && var scanned, all := |Dedup(records[..MAX_SCANNED])|, |Dedup(records)|;
         if scanned < wanted then all <= wanted else scanned == wanted < all
  {
    if |records| <= MAX_SCANNED {
      FixedAnswerIsRight(records, wanted);
    } else {
      DedupPrefix(records[..MAX_SCANNED], records[MAX_SCANNED..]);
      assert records[..MAX_SCANNED] + records[MAX_SCANNED..] == records;
    }
  }

  function Repeat<R>(x: R, n: nat): seq<R> {
    seq(n, _ => x)
  }

  lemma {:induction false} DedupRepeat<R>(x: R, n: nat)
    requires n > 0
    ensures Dedup(Repeat(x, n)) == [x]
  {
    assert Repeat(x, n)[..n - 1] == Repeat(x, n - 1);
    if n > 1 {
      DedupRepeat(x, n - 1);
      assert Repeat(x, n - 1)[0] == x;
    } else {
      assert Dedup(Repeat(x, 0)) == [];
    }
  }

  lemma RepeatCounts<R>(x: R, y: R, n: nat)
    requires x != y && n > 1
    ensures |Dedup(Repeat(x, n))| == 1 && |Dedup(Repeat(x, n - 1) + [y])| == 2
  {
    DedupRepeat(x, n);
    DedupRepeat(x, n - 1);
    DedupOneMore(Repeat(x, n - 1), y);
  }

  /** Past 1000 matches no length is safe: for every n and every window some list of n gets a wrong answer. */
  lemma PastTheScanBoundAnswersFail<R>(x: R, y: R, n: nat, wanted: nat) returns (records: seq<R>)
    requires x != y && n > MAX_SCANNED && wanted >= 1
    ensures |records| == n && Wrong(FixedAnswer(records, wanted), records, wanted)
  {
    records := if wanted >= 2 then Repeat(x, n) else Repeat(x, n - 1) + [y];
    DedupRepeat(x, MAX_SCANNED);
    RepeatCounts(x, y, n);
    assert records[..MAX_SCANNED] == Repeat(x, MAX_SCANNED);
    FixedAnswerIsRightExactly(records, wanted);
  }

  // ---- The loops ----

  method CleanItems<I, R>(items: seq<I>, clean: I -> Result<R, Refusal>) returns (r: Result<seq<R>, Refusal>)
    ensures r == CleanAll(items, clean)
  {
    var out: seq<R> := [];
    StartPrepending(CleanAll(items, clean));
    assert items[0..] == items;
    for i := 0 to |items|
      invariant CleanAll(items, clean) == Prepend(out, CleanAll(items[i..], clean))
    {
      var record := clean(items[i]);
      assert items[i..][1..] == items[i + 1..];
      if record.Err? {
        return Err(record.error);
      }
      PrependOneMore(out, record.value, CleanAll(items[i + 1..], clean));
      out := out + [record.value];
    }
    assert out + [] == out;
    return Ok(out);
  }

  function Prepend<R>(out: seq<R>, rest: Result<seq<R>, Refusal>): Result<seq<R>, Refusal> {
    if rest.Err? then rest else Ok(out + rest.value)
  }

  lemma StartPrepending<R>(rest: Result<seq<R>, Refusal>)
    ensures Prepend([], rest) == rest
  {
    if rest.Ok? {
      assert [] + rest.value == rest.value;
    }
  }

  lemma PrependOneMore<R>(out: seq<R>, x: R, rest: Result<seq<R>, Refusal>)
    ensures Prepend(out + [x], rest) == Prepend(out, if rest.Err? then rest else Ok([x] + rest.value))
  {
    if rest.Ok? {
      assert out + [x] + rest.value == out + ([x] + rest.value);
    }
  }

  method ScanPage<I, R>(site: Site<I, R>, page: nat, alreadyScanned: nat) returns (r: Result<PageRead<R>, Refusal>)
    ensures r == ReadWholePage(site, page, alreadyScanned)
  {
    var pageItems: seq<R> := [];
    var matched: int, scanned: nat, pageSkip: nat := 0, alreadyScanned, 0;
    while scanned < MAX_SCANNED
      invariant ReadWholePage(site, page, alreadyScanned)
        == ReadPage(site, page, pageSkip, PageRead(pageItems, matched, scanned))
      decreases MAX_SCANNED - scanned
    {
      var response := Extract(site, page, pageSkip, Min(CHUNK, MAX_SCANNED - scanned));
      if response.Err? {
        return Err(response.error);
      }
      matched := response.value.matched;
      var records := CleanItems(response.value.items, site.clean);
      if records.Err? {
        return Err(records.error);
      }
      pageItems := pageItems + records.value;
      scanned := scanned + response.value.returned;
      if LastChunk(response.value, pageSkip) {
        break;
      }
      pageSkip := pageSkip + CHUNK;
    }
    return Ok(PageRead(pageItems, matched, scanned));
  }

  /** The page loop of list. */
  method GatherPages<I, R(==, !new)>(site: Site<I, R>, wanted: nat, maxPages: nat)
    returns (r: Result<Gathering<R>, Refusal>)
    ensures r == Gathered(Browse(site, wanted, maxPages, [], 0))
  {
    var collected: seq<R> := [];
    var seenItems: set<R>, seenPages: set<seq<R>> := {}, {};
    var pagesRead: nat, scanned: nat, hasMore := 0, 0, Unknown;
    ghost var pages: seq<seq<R>> := [];
    while pagesRead < maxPages && scanned < MAX_SCANNED
      invariant pagesRead == |pages| && hasMore == Unknown && Holds(collected, seenItems, seenPages, pages)
      invariant Browse(site, wanted, maxPages, [], 0) == Browse(site, wanted, maxPages, pages, scanned)
      decreases maxPages - pagesRead
    {
      var read := ScanPage(site, pagesRead, scanned);
      if read.Err? {
        return Err(read.error);
      }
      var pageItems, matched := read.value.items, read.value.matched;
      scanned := read.value.scanned;
      pagesRead := pagesRead + 1;
      ghost var before := pages;
      pages := pages + [pageItems];
      if pageItems in seenPages {
        RepeatedPage(collected, seenItems, seenPages, before, pageItems);
        hasMore := Unknown;
        break;
      }
      seenPages := seenPages + {pageItems};
      collected, seenItems := KeepFirsts(collected, seenItems, before, pageItems);
      if |collected| >= wanted {
        if |collected| > wanted || site.kind == SinglePage {
          hasMore := if |collected| > wanted then Yes else No;
        } else {
          hasMore := Unknown;
        }
        break;
      }
      if matched > |pageItems| {
        hasMore := Yes;
        break;
      }
      if scanned >= MAX_SCANNED {
        hasMore := Unknown;
        break;
      }
      if site.kind == SinglePage {
        hasMore := No;
        break;
      }
      if pagesRead >= maxPages {
        hasMore := Unknown;
        break;
      }
      var advanced := site.advance(pagesRead - 1);
      if advanced.Err? {
        return Err(advanced.error);
      }
      if !advanced.value {
        hasMore := No;
        break;
      }
    }
    assert collected == Dedup(Flatten(pages));
    return Ok(Gathering(collected, pagesRead, scanned, hasMore));
  }

  method List<I, R(==, !new)>(site: Site<I, R>, skip: int, take: int, maxPages: int, adapterPages: nat)
    returns (r: Result<ListResult<R>, Refusal>)
    ensures var bad := ListArguments(skip, take, maxPages, adapterPages);
      if bad.Some? then r == Err(bad.value) else r == ListSpec(site, skip, take, maxPages)
  {
    if !(0 <= skip < MAX_SCANNED) || !(1 <= take <= 100) {
      return Err(ArgumentInvalid);
    }
    if skip + take > MAX_SCANNED {
      return Err(PaginationBound);
    }
    if !(1 <= maxPages <= adapterPages) {
      return Err(ArgumentInvalid);
    }
    var gathered := GatherPages(site, skip + take, maxPages);
    r := WindowOut(gathered, skip, take);
  }

  /** The end of list: the requested window. */
  method WindowOut<R>(gathered: Result<Gathering<R>, Refusal>, skip: nat, take: nat)
    returns (r: Result<ListResult<R>, Refusal>)
    ensures r == Present(gathered, skip, take)
  {
    if gathered.Err? {
      return Err(gathered.error);
    }
    var collected := gathered.value.collected;
    var start := Min(skip, |collected|);
    var end := Min(start + take, |collected|);
    return Ok(ListResult(collected[start..end], gathered.value.pagesRead, gathered.value.scanned,
      gathered.value.hasMore));
  }

  /** What the sets and the list hold after these pages. */
  ghost predicate Holds<R(!new)>(collected: seq<R>, seenItems: set<R>, seenPages: set<seq<R>>, pages: seq<seq<R>>) {
    && Firsts(collected, seenItems, Flatten(pages))
    && forall p :: p in seenPages <==> p in pages
  }

  ghost predicate Firsts<R(!new)>(collected: seq<R>, seenItems: set<R>, s: seq<R>) {
    collected == Dedup(s) && forall x :: x in seenItems <==> x in s
  }

  lemma RepeatedPage<R(!new)>(collected: seq<R>, seenItems: set<R>, seenPages: set<seq<R>>, pages: seq<seq<R>>,
                              page: seq<R>)
    requires Holds(collected, seenItems, seenPages, pages) && page in pages
    ensures collected == Dedup(Flatten(pages + [page]))
  {
    PageInFlatten(pages, page);
    FlattenOneMore(pages, page);
    DedupAbsorbs(Flatten(pages), page);
  }

  method KeepFirsts<R(==, !new)>(collected: seq<R>, seenItems: set<R>, ghost pages: seq<seq<R>>, pageItems: seq<R>)
    returns (more: seq<R>, seen: set<R>)
    requires Firsts(collected, seenItems, Flatten(pages))
    ensures Firsts(more, seen, Flatten(pages + [pageItems]))
  {
    more, seen := collected, seenItems;
    ghost var s := Flatten(pages);
    assert s + pageItems[..0] == s;
    for i := 0 to |pageItems|
      invariant Firsts(more, seen, s + pageItems[..i])
    {
      var item := pageItems[i];
      FirstsTurn(more, seen, s + pageItems[..i], item);
      assert s + pageItems[..i + 1] == s + pageItems[..i] + [item];
      if item !in seen {
        seen := seen + {item};
        more := more + [item];
      }
    }
    assert pageItems[..|pageItems|] == pageItems;
    FlattenOneMore(pages, pageItems);
  }

  lemma FirstsTurn<R(!new)>(collected: seq<R>, seen: set<R>, s: seq<R>, item: R)
    requires Firsts(collected, seen, s)
    ensures if item in seen then Firsts(collected, seen, s + [item])
      else Firsts(collected + [item], seen + {item}, s + [item])
  {
    DedupOneMore(s, item);
  }
}
