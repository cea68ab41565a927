/**
  The walk of internal/diskprofile/scan.go as a function from scanner state to scanner state, and
  what it keeps. The class in DiskScan.dfy performs exactly this function in place.
 */
module DiskWalk {
  import opened Common
  import opened TopEntries
  import opened DiskTree

  datatype ErrorKind =
    | KindCanceled | KindOneFileSystem | KindSymlinkSkipped | KindMaxDepth
    | KindReadDir | KindExcluded | KindLstat | KindRetentionLimit

  datatype ScanError = ScanError(path: string, kind: ErrorKind, depth: nat)

  datatype Entry = Entry(row: Row, children: seq<Entry>)

  /**
    The scanner's fields. `checksLeft` says how many more times ctx.Err() answers nil (None: the
    context is never cancelled). `log` and `offered` record the entries visited and the rows
    offered to the top lists so far; the scanner never reads them.
   */
  datatype State = State(
    hardLinks: set<InodeKey>, errors: seq<ScanError>, topDirs: seq<Row>, topFiles: seq<Row>,
    visited: nat, retained: nat, omitted: nat, retentionLimitRecorded: bool, canceledRecorded: bool,
    checksLeft: Option<nat>, log: seq<Visit>, offered: seq<Row>)
  {
    predicate Live() {
      checksLeft != Some(0)
    }

    /** After one ctx.Err(). */
    function Checked(): State {
      if checksLeft.Some? && checksLeft.value > 0 then this.(checksLeft := Some(checksLeft.value - 1)) else this
    }

    function Record(path: string, kind: ErrorKind, depth: nat): State {
      this.(errors := errors + [ScanError(path, kind, depth)])
    }

    function RecordCanceled(path: string, depth: nat): State {
      if canceledRecorded then this else Record(path, KindCanceled, depth).(canceledRecorded := true)
    }

    function RecordRetentionLimit(path: string, depth: nat): State {
      if retentionLimitRecorded then this
      else Record(path, KindRetentionLimit, depth).(retentionLimitRecorded := true)
    }

    function CountVisit(retain: bool, v: Visit): State {
      this.(visited := visited + 1, omitted := omitted + (if retain then 0 else 1), log := log + [v])
    }

    function Offer(o: Options, row: Row, depth: nat): State {
      if depth == 0 then this
      else if row.kind == Directory then
        this.(topDirs := RetainTopEntry(topDirs, row, o.limit), offered := offered + [row])
      else if row.kind == File then
        this.(topFiles := RetainTopEntry(topFiles, row, o.limit), offered := offered + [row])
      else this
    }
  }

  const START := State({}, [], [], [], 0, 0, 0, false, false, None, [], [])

  datatype Entered = Entered(st: State, row: Row, proceed: bool)

  datatype Walked = Walked(st: State, entry: Entry)

  datatype Turn = Turn(st: State, kid: Option<Entry>, bytes: Bytes, omitted: bool, canceled: bool, stop: bool)

  datatype Tally = Tally(st: State, kids: seq<Entry>, below: Bytes, omitted: nat, canceled: bool, stopped: bool)

  function FreshRow(path: string, info: Info): Row {
    Row(path, info.kind, info.size, ZERO, ZERO, false, 0, TopEntries.Clean)
  }

  function Enter(o: Options, st: State, path: string, node: Node, depth: nat, retain: bool): Entered {
    var v := Arrival(o, path, node, depth);
    var row := FreshRow(path, node.info);
    if !st.Live() then
      Entered(st.CountVisit(retain, v.(status := Interrupted)).RecordCanceled(path, depth), row.(note := Canceled),
        false)
    else if OutsideRootDevice(o, node.info, depth) then
      Entered(st.CountVisit(retain, v).Checked().Record(path, KindOneFileSystem, depth),
        row.(note := OutsideFileSystem), false)
    else
      var duplicate := Duplicate(st.hardLinks, v);
      Entered(st.CountVisit(retain, v).Checked().(hardLinks := Meet(st.hardLinks, v)),
        row.(duplicate := duplicate, subtree := if duplicate then ZERO else node.info.size), true)
  }

  function Walk(o: Options, st: State, path: string, node: Node, depth: nat, retain: bool): Walked
    decreases node, 1
  {
    var e := Enter(o, st, path, node, depth, retain);
    if !e.proceed then Walked(e.st, Entry(e.row, []))
    else
      var w := ReadBelow(o, e.st, path, node, depth, retain, e.row);
      Walked(w.st.Offer(o, w.entry.row, depth), w.entry)
  }

  function ReadBelow(o: Options, st: State, path: string, node: Node, depth: nat, retain: bool, row: Row): Walked
    decreases node, 0
  {
    if row.kind == Symlink then
      Walked(st.Record(path, KindSymlinkSkipped, depth), Entry(row.(note := SymlinkNotFollowed), []))
    else if row.kind != Directory then Walked(st, Entry(row, []))
    else if AtMaxDepth(o, depth) then
      Walked(st.Record(path, KindMaxDepth, depth), Entry(row.(note := MaxDepthReached), []))
    else if !st.Live() then Walked(st.RecordCanceled(path, depth), Entry(row.(note := Canceled), []))
    else if node.listing.Unreadable? then
      Walked(st.Checked().Record(path, KindReadDir, depth), Entry(row.(note := ReadDirFailed), []))
    else
      var t := WalkList(o, st.Checked(), path, node.listing.children, depth + 1, retain);
      Walked(t.st, Entry(row.(
        below := t.below, childrenOmitted := t.omitted, subtree := Add(row.subtree, t.below),
        note := if t.canceled then Canceled else row.note), t.kids))
  }

  function WalkList(o: Options, st: State, path: string, children: seq<Child>, depth: nat, retain: bool): Tally
    requires depth > 0
    decreases children, 0
  {
    if children == [] then Tally(st, [], ZERO, 0, false, false)
    else
      var t := WalkList(o, st, path, children[..|children| - 1], depth, retain);
      if t.stopped then t else TakeTurn(t, WalkChild(o, t.st, path, children[|children| - 1], depth, retain))
  }

  function TakeTurn(t: Tally, c: Turn): Tally {
    Tally(c.st, t.kids + (if c.kid.Some? then [c.kid.value] else []), Add(t.below, c.bytes),
      t.omitted + (if c.omitted then 1 else 0), t.canceled || c.canceled, c.stop)
  }

  function WalkChild(o: Options, st: State, path: string, child: Child, depth: nat, retain: bool): Turn
    requires depth > 0
    decreases child, 2
  {
    var childPath := JoinPath(path, child.name);
    var st1 := st.Checked();
    if !st.Live() then Turn(st.RecordCanceled(path, depth - 1), None, ZERO, false, true, true)
    else if child.excluded then Turn(st1.Record(childPath, KindExcluded, depth), None, ZERO, false, false, false)
    else if !st1.Live() then Turn(st1.RecordCanceled(childPath, depth), None, ZERO, false, true, true)
    else if child.stat.LstatFailed? then
      Turn(st1.Checked().Record(childPath, KindLstat, depth), None, ZERO, false, false, false)
    else
      var granted := retain && st.retained < o.maxRetained;
      var w := Walk(o, Grant(o, st1.Checked(), childPath, depth, retain), childPath, child.stat.node, depth, granted);
      Turn(w.st.Checked(), if granted then Some(w.entry) else None, w.entry.row.subtree, retain && !granted, false,
        !w.st.Live())
  }

  /** Whether a turn of the loop gets as far as walking the child. */
  predicate Reaches(st: State, child: Child) {
    st.Live() && !child.excluded && st.Checked().Live() && child.stat.Present?
  }

  /** The scanner reserves a place in the retained tree, or records that there is none left. */
  function Grant(o: Options, st: State, path: string, depth: nat, retain: bool): State {
    if !retain then st
    else if st.retained < o.maxRetained then st.(retained := st.retained + 1)
    else st.RecordRetentionLimit(path, depth)
  }

  /** The state in which the turn walks its child. */
  function Ready(o: Options, st: State, path: string, child: Child, depth: nat, retain: bool): State {
    Grant(o, st.Checked().Checked(), JoinPath(path, child.name), depth, retain)
  }

  function TurnWalk(o: Options, st: State, path: string, child: Child, depth: nat, retain: bool): Walked
    requires Reaches(st, child)
  {
    Walk(o, Ready(o, st, path, child, depth, retain), JoinPath(path, child.name), child.stat.node, depth,
      retain && st.retained < o.maxRetained)
  }

  lemma TurnWalks(o: Options, st: State, path: string, child: Child, depth: nat, retain: bool)
    requires depth > 0 && Reaches(st, child)
    ensures var t, w := WalkChild(o, st, path, child, depth, retain), TurnWalk(o, st, path, child, depth, retain);
      && t.st == w.st.Checked() && t.bytes == w.entry.row.subtree && t.stop == !w.st.Live()
      && t.kid == (if retain && st.retained < o.maxRetained then Some(w.entry) else None)
      && t.omitted == (retain && st.retained >= o.maxRetained)
  {
  }

  lemma ReadyShape(o: Options, st: State, path: string, child: Child, depth: nat, retain: bool)
    ensures var st1 := Ready(o, st, path, child, depth, retain);
      st1 == st.(retained := st1.retained, errors := st1.errors, retentionLimitRecorded := st1.retentionLimitRecorded,
        checksLeft := st1.checksLeft)
  {
  }

  lemma TurnSkips(o: Options, st: State, path: string, child: Child, depth: nat, retain: bool)
    requires depth > 0 && !Reaches(st, child)
    ensures var t := WalkChild(o, st, path, child, depth, retain);
      && t.kid.None? && t.bytes == ZERO && !t.omitted && (t.stop ==> !t.st.Live())
      && t.st == st.(errors := t.st.errors, canceledRecorded := t.st.canceledRecorded, checksLeft := t.st.checksLeft)
      && (!t.stop ==> child.excluded || child.stat.LstatFailed?)
  {
  }

  /** Whether a counted entry's children are read. */
  predicate Lists(o: Options, st: State, node: Node, depth: nat, row: Row) {
    row.kind == Directory && !AtMaxDepth(o, depth) && st.Live() && node.listing.Listed?
  }

  lemma BelowLeaf(o: Options, st: State, path: string, node: Node, depth: nat, retain: bool, row: Row)
    requires !Lists(o, st, node, depth, row)
    ensures var w := ReadBelow(o, st, path, node, depth, retain, row);
      && w.st == st.(errors := w.st.errors, canceledRecorded := w.st.canceledRecorded, checksLeft := w.st.checksLeft)
      && w.entry == Entry(row.(note := w.entry.row.note), [])
      && (w.st.Live() ==> row.kind != Directory || AtMaxDepth(o, depth) || node.listing.Unreadable?)
  {
  }

  lemma EnterShape(o: Options, st: State, path: string, node: Node, depth: nat, retain: bool)
    ensures var e := Enter(o, st, path, node, depth, retain);
      && e.st.offered == st.offered && e.st.topDirs == st.topDirs && e.st.topFiles == st.topFiles
      && (!e.proceed && e.st.Live() ==> OutsideRootDevice(o, node.info, depth))
      && (e.proceed ==> !OutsideRootDevice(o, node.info, depth))
      && e.row.path == path && e.row.kind == node.info.kind && e.row.own == node.info.size
      && e.row.below == ZERO && e.row.childrenOmitted == 0
  {
  }

  // ---- Visits ----

  /** `seen` is an initial part of `full`, of which only the last visit may have been interrupted. */
  ghost predicate Within(seen: seq<Visit>, full: seq<Visit>) {
    && |seen| <= |full|
    && forall i | 0 <= i < |seen| ::
         seen[i] == full[i] || (i == |seen| - 1 && seen[i] == full[i].(status := Interrupted))
  }

  lemma WithinPart(done: seq<Visit>, part: seq<Visit>, full: seq<Visit>, rest: seq<Visit>)
    requires Within(part, full)
    ensures Within(done + part, done + full + rest)
  {
    var a, b := done + part, done + full + rest;
    forall i | 0 <= i < |a| ensures a[i] == b[i] || (i == |a| - 1 && a[i] == b[i].(status := Interrupted)) {
      if i >= |done| {
        assert a[i] == part[i - |done|] && b[i] == full[i - |done|];
      }
    }
  }

  /** From `st` to `st'` the scan made some of the visits `full`, and all of them if `complete`. */
  ghost predicate Visits(st: State, st': State, full: seq<Visit>, complete: bool) {
    && |st.log| <= |st'.log| && st'.log[..|st.log|] == st.log
    && Within(New(st, st'), full)
    && (complete ==> New(st, st') == full)
  }

  function New(st: State, st': State): seq<Visit> {
    if |st.log| <= |st'.log| then st'.log[|st.log|..] else []
  }

  lemma VisitsNothing(st: State, st': State, full: seq<Visit>, complete: bool)
    requires st'.log == st.log
    requires complete ==> full == []
    ensures Visits(st, st', full, complete)
  {
  }

  lemma VisitsThen(st: State, st1: State, st2: State, full1: seq<Visit>, full2: seq<Visit>, rest: seq<Visit>,
                   complete: bool)
    requires Visits(st, st1, full1, true) && Visits(st1, st2, full2, complete)
    requires complete ==> rest == []
    ensures Visits(st, st2, full1 + full2 + rest, complete)
    ensures New(st, st2) == full1 + New(st1, st2)
  {
    assert New(st, st2) == full1 + New(st1, st2);
    WithinPart(full1, New(st1, st2), full2, rest);
  }

  lemma {:induction false} WalkVisits(o: Options, st: State, path: string, node: Node, depth: nat, retain: bool)
    ensures Visits(st, Walk(o, st, path, node, depth, retain).st, Preorder(o, path, node, depth),
      Walk(o, st, path, node, depth, retain).st.Live())
    ensures |New(st, Walk(o, st, path, node, depth, retain).st)| > 0
    decreases node, 1
  {
    var e := Enter(o, st, path, node, depth, retain);
    EnterVisits(o, st, path, node, depth, retain);
    if e.proceed {
      var v := Arrival(o, path, node, depth);
      var w := ReadBelow(o, e.st, path, node, depth, retain, e.row);
      BelowVisits(o, e.st, path, node, depth, retain, e.row);
      VisitsThen(st, e.st, w.st, [v], Below(o, path, node, depth), [], w.st.Live());
      assert [v] + Below(o, path, node, depth) + [] == Preorder(o, path, node, depth);
    }
  }

  lemma EnterVisits(o: Options, st: State, path: string, node: Node, depth: nat, retain: bool)
    ensures var e := Enter(o, st, path, node, depth, retain);
      var v := Arrival(o, path, node, depth);
      if e.proceed then New(st, e.st) == [v] && Visits(st, e.st, [v], true) && v.status == Counted
      else |New(st, e.st)| == 1 && Visits(st, e.st, Preorder(o, path, node, depth), e.st.Live())
  {
    var e := Enter(o, st, path, node, depth, retain);
    var v := Arrival(o, path, node, depth);
    if e.proceed {
      assert New(st, e.st) == [v];
    } else if st.Live() {
      assert New(st, e.st) == [v] == Preorder(o, path, node, depth);
    } else {
      assert New(st, e.st) == [v.(status := Interrupted)];
    }
  }

  lemma {:induction false} BelowVisits(o: Options, st: State, path: string, node: Node, depth: nat, retain: bool,
                                       row: Row)
    requires row.kind == node.info.kind && !OutsideRootDevice(o, node.info, depth)
    ensures Visits(st, ReadBelow(o, st, path, node, depth, retain, row).st, Below(o, path, node, depth),
      ReadBelow(o, st, path, node, depth, retain, row).st.Live())
    decreases node, 0
  {
    var w := ReadBelow(o, st, path, node, depth, retain, row);
    if Lists(o, st, node, depth, row) {
      var t := WalkList(o, st.Checked(), path, node.listing.children, depth + 1, retain);
      ListVisits(o, st.Checked(), path, node.listing.children, depth + 1, retain);
      assert New(st, w.st) == New(st.Checked(), t.st);
    } else {
      BelowLeaf(o, st, path, node, depth, retain, row);
      VisitsNothing(st, w.st, Below(o, path, node, depth), w.st.Live());
    }
  }

  lemma {:induction false} ListVisits(o: Options, st: State, path: string, children: seq<Child>, depth: nat,
                                      retain: bool)
    requires depth > 0
    ensures var t := WalkList(o, st, path, children, depth, retain);
      && Visits(st, t.st, PreorderAll(o, path, children, depth), !t.stopped)
      && (t.stopped ==> !t.st.Live())
    decreases children, 0
  {
    if children == [] {
      VisitsNothing(st, st, [], true);
    } else {
      var front, c := children[..|children| - 1], children[|children| - 1];
      var t := WalkList(o, st, path, front, depth, retain);
      ListVisits(o, st, path, front, depth, retain);
      assert children == front + [c];
      PreorderStep(o, path, front, c, depth);
      if t.stopped {
        WithinPart([], New(st, t.st), PreorderAll(o, path, front, depth), PreorderChild(o, path, c, depth));
        assert [] + New(st, t.st) == New(st, t.st);
        assert [] + PreorderAll(o, path, front, depth) + PreorderChild(o, path, c, depth)
          == PreorderAll(o, path, children, depth);
      } else {
        ChildVisits(o, t.st, path, c, depth, retain);
        var turn := WalkChild(o, t.st, path, c, depth, retain);
        VisitsThen(st, t.st, turn.st, PreorderAll(o, path, front, depth), PreorderChild(o, path, c, depth), [],
          !turn.stop);
        assert PreorderAll(o, path, front, depth) + PreorderChild(o, path, c, depth) + []
          == PreorderAll(o, path, children, depth);
      }
    }
  }

  /** How one more turn of the loop extends what the loop has visited. */
  lemma ListStep(o: Options, st: State, path: string, children: seq<Child>, depth: nat, retain: bool)
    requires depth > 0 && children != []
    requires !WalkList(o, st, path, children[..|children| - 1], depth, retain).stopped
    ensures var t := WalkList(o, st, path, children[..|children| - 1], depth, retain);
      var turn := WalkChild(o, t.st, path, children[|children| - 1], depth, retain);
      && WalkList(o, st, path, children, depth, retain) == TakeTurn(t, turn)
      && t.st.log == st.log + New(st, t.st)
      && New(st, turn.st) == New(st, t.st) + New(t.st, turn.st)
  {
    var front, c := children[..|children| - 1], children[|children| - 1];
    var t := WalkList(o, st, path, front, depth, retain);
    ListUnfolds(o, st, path, children, depth, retain);
    ListVisits(o, st, path, front, depth, retain);
    ChildVisits(o, t.st, path, c, depth, retain);
    LogsAppend(st, t.st, WalkChild(o, t.st, path, c, depth, retain).st);
  }

  lemma ListUnfolds(o: Options, st: State, path: string, children: seq<Child>, depth: nat, retain: bool)
    requires depth > 0 && children != []
    requires !WalkList(o, st, path, children[..|children| - 1], depth, retain).stopped
    ensures var t := WalkList(o, st, path, children[..|children| - 1], depth, retain);
      WalkList(o, st, path, children, depth, retain)
        == TakeTurn(t, WalkChild(o, t.st, path, children[|children| - 1], depth, retain))
  {
  }

  /** One more entry of a listing that has not been cut short. */
  lemma ListTurn(o: Options, st: State, path: string, children: seq<Child>, i: nat, depth: nat, retain: bool)
    requires depth > 0 && i < |children| && !WalkList(o, st, path, children[..i], depth, retain).stopped
    ensures var t := WalkList(o, st, path, children[..i], depth, retain);
      WalkList(o, st, path, children[..i + 1], depth, retain)
        == TakeTurn(t, WalkChild(o, t.st, path, children[i], depth, retain))
  {
    assert children[..i + 1][..i] == children[..i];
    ListUnfolds(o, st, path, children[..i + 1], depth, retain);
  }

  /** Logs that only grow keep their parts. */
  lemma LogsAppend(st: State, st1: State, st2: State)
    requires st.log <= st1.log && st1.log <= st2.log
    ensures st1.log == st.log + New(st, st1) && New(st, st2) == New(st, st1) + New(st1, st2)
  {
  }

  lemma PreorderStep(o: Options, parent: string, a: seq<Child>, c: Child, depth: nat)
    ensures PreorderAll(o, parent, a + [c], depth)
      == PreorderAll(o, parent, a, depth) + PreorderChild(o, parent, c, depth)
  {
    PreorderAppend(o, parent, a, [c], depth);
    assert [c][1..] == [];
  }

  lemma {:induction false} ChildVisits(o: Options, st: State, path: string, child: Child, depth: nat, retain: bool)
    requires depth > 0
    ensures var t := WalkChild(o, st, path, child, depth, retain);
      && Visits(st, t.st, PreorderChild(o, path, child, depth), !t.stop)
      && (t.stop ==> !t.st.Live())
    decreases child, 2
  {
    var t := WalkChild(o, st, path, child, depth, retain);
    if Reaches(st, child) {
      TurnWalks(o, st, path, child, depth, retain);
      ReadyShape(o, st, path, child, depth, retain);
      var st1 := Ready(o, st, path, child, depth, retain);
      var w := TurnWalk(o, st, path, child, depth, retain);
      WalkVisits(o, st1, JoinPath(path, child.name), child.stat.node, depth, retain && st.retained < o.maxRetained);
      assert New(st, t.st) == New(st1, w.st);
    } else {
      TurnSkips(o, st, path, child, depth, retain);
      VisitsNothing(st, t.st, PreorderChild(o, path, child, depth), !t.stop);
    }
  }

  // ---- Counters and one-time records ----

  function Occurrences(errors: seq<ScanError>, kind: ErrorKind): nat {
    if errors == [] then 0
    else Occurrences(errors[..|errors| - 1], kind) + if errors[|errors| - 1].kind == kind then 1 else 0
  }

  lemma OccurrencesAppend(errors: seq<ScanError>, e: ScanError, kind: ErrorKind)
    ensures Occurrences(errors + [e], kind) == Occurrences(errors, kind) + if e.kind == kind then 1 else 0
  {
    assert (errors + [e])[..|errors|] == errors;
  }

  ghost predicate ErrorsTracked(st: State) {
    && Occurrences(st.errors, KindRetentionLimit) == (if st.retentionLimitRecorded then 1 else 0)
    && Occurrences(st.errors, KindCanceled) == (if st.canceledRecorded then 1 else 0)
    && (st.canceledRecorded ==> !st.Live())
  }

  ghost predicate Bookkept(o: Options, st: State) {
    && o.maxRetained >= 1
    && st.visited == |st.log|
    && st.omitted == |st.log| - Min(|st.log|, o.maxRetained)
    && ErrorsTracked(st)
  }

  /** Between walks, retention has used up exactly what the visits so far called for. */
  ghost predicate Settled(o: Options, st: State) {
    && Bookkept(o, st)
    && st.retained == Min(|st.log|, o.maxRetained)
    && st.retentionLimitRecorded == (|st.log| > o.maxRetained)
  }

  /** On entry to a walk the next visit has been granted a place in the tree, or refused one. */
  ghost predicate Granted(o: Options, st: State, retain: bool) {
    && Bookkept(o, st)
    && retain == (|st.log| < o.maxRetained)
    && st.retained == Min(|st.log| + 1, o.maxRetained)
    && st.retentionLimitRecorded == !retain
  }

  lemma RecordTracked(st: State, path: string, kind: ErrorKind, depth: nat)
    requires ErrorsTracked(st) && kind != KindCanceled && kind != KindRetentionLimit
    ensures ErrorsTracked(st.Record(path, kind, depth))
  {
    OccurrencesAppend(st.errors, ScanError(path, kind, depth), KindCanceled);
    OccurrencesAppend(st.errors, ScanError(path, kind, depth), KindRetentionLimit);
  }

  lemma OneTimeTracked(st: State, path: string, depth: nat)
    requires ErrorsTracked(st)
    ensures !st.Live() ==> ErrorsTracked(st.RecordCanceled(path, depth))
    ensures ErrorsTracked(st.RecordRetentionLimit(path, depth))
  {
    OccurrencesAppend(st.errors, ScanError(path, KindCanceled, depth), KindCanceled);
    OccurrencesAppend(st.errors, ScanError(path, KindCanceled, depth), KindRetentionLimit);
    OccurrencesAppend(st.errors, ScanError(path, KindRetentionLimit, depth), KindCanceled);
    OccurrencesAppend(st.errors, ScanError(path, KindRetentionLimit, depth), KindRetentionLimit);
  }

  lemma EnterSettles(o: Options, st: State, path: string, node: Node, depth: nat, retain: bool)
    requires Granted(o, st, retain)
    ensures Settled(o, Enter(o, st, path, node, depth, retain).st)
    ensures |Enter(o, st, path, node, depth, retain).st.log| == |st.log| + 1
  {
    var st1 := st.CountVisit(retain, Arrival(o, path, node, depth));
    assert ErrorsTracked(st1) && ErrorsTracked(st1.Checked());
    OneTimeTracked(st.CountVisit(retain, Arrival(o, path, node, depth).(status := Interrupted)), path, depth);
    RecordTracked(st1.Checked(), path, KindOneFileSystem, depth);
  }

  lemma {:induction false} WalkSettles(o: Options, st: State, path: string, node: Node, depth: nat, retain: bool)
    requires Granted(o, st, retain)
    ensures Settled(o, Walk(o, st, path, node, depth, retain).st)
    decreases node, 1
  {
    var e := Enter(o, st, path, node, depth, retain);
    EnterSettles(o, st, path, node, depth, retain);
    if e.proceed {
      BelowSettles(o, e.st, path, node, depth, retain, e.row);
      var w := ReadBelow(o, e.st, path, node, depth, retain, e.row);
      OfferSettles(o, w.st, w.entry.row, depth);
    }
  }

  lemma OfferSettles(o: Options, st: State, row: Row, depth: nat)
    requires Settled(o, st)
    ensures Settled(o, st.Offer(o, row, depth))
  {
    var st' := st.Offer(o, row, depth);
    assert st' == st.(topDirs := st'.topDirs, topFiles := st'.topFiles, offered := st'.offered);
  }

  lemma {:induction false} BelowSettles(o: Options, st: State, path: string, node: Node, depth: nat, retain: bool,
                                        row: Row)
    requires Settled(o, st) && (retain <==> |st.log| <= o.maxRetained)
    ensures Settled(o, ReadBelow(o, st, path, node, depth, retain, row).st)
    decreases node, 0
  {
    if Lists(o, st, node, depth, row) {
      CheckedSettled(o, st);
      ListSettles(o, st.Checked(), path, node.listing.children, depth + 1, retain);
    } else {
      LeafSettles(o, st, path, node, depth, retain, row);
    }
  }

  lemma LeafSettles(o: Options, st: State, path: string, node: Node, depth: nat, retain: bool, row: Row)
    requires Settled(o, st)
    requires !Lists(o, st, node, depth, row)
    ensures var st' := ReadBelow(o, st, path, node, depth, retain, row).st; Settled(o, st')
  {
    if row.kind == Symlink {
      RecordTracked(st, path, KindSymlinkSkipped, depth);
    } else if row.kind != Directory {
    } else if AtMaxDepth(o, depth) {
      RecordTracked(st, path, KindMaxDepth, depth);
    } else if !st.Live() {
      OneTimeTracked(st, path, depth);
    } else {
      RecordTracked(st.Checked(), path, KindReadDir, depth);
    }
  }

  lemma {:induction false} ListSettles(o: Options, st: State, path: string, children: seq<Child>, depth: nat,
                                       retain: bool)
    requires depth > 0 && Settled(o, st) && (!retain ==> |st.log| > o.maxRetained)
    ensures Settled(o, WalkList(o, st, path, children, depth, retain).st)
    ensures |WalkList(o, st, path, children, depth, retain).st.log| >= |st.log|
    decreases children, 0
  {
    if children != [] {
      var front, c := children[..|children| - 1], children[|children| - 1];
      var t := WalkList(o, st, path, front, depth, retain);
      ListSettles(o, st, path, front, depth, retain);
      if !t.stopped {
        ChildSettles(o, t.st, path, c, depth, retain);
      }
    }
  }

  lemma {:induction false} ChildSettles(o: Options, st: State, path: string, child: Child, depth: nat, retain: bool)
    requires depth > 0 && Settled(o, st) && (!retain ==> |st.log| > o.maxRetained)
    ensures Settled(o, WalkChild(o, st, path, child, depth, retain).st)
    ensures |WalkChild(o, st, path, child, depth, retain).st.log| >= |st.log|
    decreases child, 2
  {
    if Reaches(st, child) {
      TurnWalks(o, st, path, child, depth, retain);
      var st1 := Ready(o, st, path, child, depth, retain);
      var granted := retain && st.retained < o.maxRetained;
      CheckedSettled(o, st);
      CheckedSettled(o, st.Checked());
      GrantGrants(o, st.Checked().Checked(), JoinPath(path, child.name), depth, retain);
      WalkSettles(o, st1, JoinPath(path, child.name), child.stat.node, depth, granted);
      WalkVisits(o, st1, JoinPath(path, child.name), child.stat.node, depth, granted);
      CheckedSettled(o, TurnWalk(o, st, path, child, depth, retain).st);
    } else {
      UnreachedSettles(o, st, path, child, depth, retain);
    }
  }

  lemma CheckedSettled(o: Options, st: State)
    requires Settled(o, st)
    ensures Settled(o, st.Checked())
  {
  }

  lemma UnreachedSettles(o: Options, st: State, path: string, child: Child, depth: nat, retain: bool)
    requires depth > 0 && Settled(o, st) && !Reaches(st, child)
    ensures var t := WalkChild(o, st, path, child, depth, retain); Settled(o, t.st) && t.st.log == st.log
  {
    TurnSkips(o, st, path, child, depth, retain);
    UnreachedTracked(o, st, path, child, depth, retain);
  }

  lemma UnreachedTracked(o: Options, st: State, path: string, child: Child, depth: nat, retain: bool)
    requires depth > 0 && ErrorsTracked(st) && !Reaches(st, child)
    ensures ErrorsTracked(WalkChild(o, st, path, child, depth, retain).st)
  {
    var childPath := JoinPath(path, child.name);
    if !st.Live() {
      OneTimeTracked(st, path, depth - 1);
    } else if child.excluded {
      RecordTracked(st.Checked(), childPath, KindExcluded, depth);
    } else if !st.Checked().Live() {
      OneTimeTracked(st.Checked(), childPath, depth);
    } else {
      RecordTracked(st.Checked().Checked(), childPath, KindLstat, depth);
    }
  }

  lemma GrantGrants(o: Options, st: State, path: string, depth: nat, retain: bool)
    requires Settled(o, st) && (!retain ==> |st.log| > o.maxRetained)
    ensures Granted(o, Grant(o, st, path, depth, retain), retain && st.retained < o.maxRetained)
  {
    OneTimeTracked(st, path, depth);
  }

  // ---- Bytes ----

  lemma ChargesOne(seen: set<InodeKey>, v: Visit)
    ensures Charges(seen, [v]) == Charge(seen, v)
  {
    assert [v][1..] == [];
    AddZero(Charge(seen, v));
  }

  lemma MeetsOne(seen: set<InodeKey>, v: Visit)
    ensures MeetAll(seen, [v]) == Meet(seen, v)
  {
    assert [v][1..] == [];
  }

  /** From `st` to `st'` the scan charged `bytes` for its visits and met their inodes. */
  ghost predicate Charged(st: State, st': State, bytes: Bytes) {
    bytes == Charges(st.hardLinks, New(st, st')) && st'.hardLinks == MeetAll(st.hardLinks, New(st, st'))
  }

  lemma ChargedThen(st: State, st1: State, st2: State, bytes1: Bytes, bytes2: Bytes)
    requires Charged(st, st1, bytes1) && Charged(st1, st2, bytes2)
    requires New(st, st2) == New(st, st1) + New(st1, st2)
    ensures Charged(st, st2, Add(bytes1, bytes2))
  {
    ChargesAppend(st.hardLinks, New(st, st1), New(st1, st2));
    MeetAllAppend(st.hardLinks, New(st, st1), New(st1, st2));
  }

  lemma SameCharged(st: State, st': State, st1: State, st1': State, bytes: Bytes)
    requires st.log == st1.log && st'.log == st1'.log
    requires st.hardLinks == st1.hardLinks && st'.hardLinks == st1'.hardLinks
    requires Charged(st1, st1', bytes)
    ensures Charged(st, st', bytes)
  {
  }

  lemma ChargedNothing(st: State, st': State)
    requires st.log == st'.log && st.hardLinks == st'.hardLinks
    ensures Charged(st, st', ZERO)
  {
    assert New(st, st') == [];
  }

  lemma EnterCharges(o: Options, st: State, path: string, node: Node, depth: nat, retain: bool)
    ensures var e := Enter(o, st, path, node, depth, retain); Charged(st, e.st, e.row.subtree)
  {
    var e := Enter(o, st, path, node, depth, retain);
    var v := Arrival(o, path, node, depth);
    var logged := if st.Live() then v else v.(status := Interrupted);
    assert New(st, e.st) == [logged];
    ChargesOne(st.hardLinks, logged);
    MeetsOne(st.hardLinks, logged);
    EnterRow(o, st, path, node, depth, retain, logged);
  }

  lemma EnterRow(o: Options, st: State, path: string, node: Node, depth: nat, retain: bool, v: Visit)
    requires v == if st.Live() then Arrival(o, path, node, depth)
      else Arrival(o, path, node, depth).(status := Interrupted)
    ensures var e := Enter(o, st, path, node, depth, retain);
      && e.st.hardLinks == Meet(st.hardLinks, v)
      && e.row == FreshRow(path, node.info).(note := e.row.note, subtree := Charge(st.hardLinks, v),
        duplicate := Duplicate(st.hardLinks, v))
      && (v.status != Counted ==> Refused(e.row))
  {
  }

  lemma {:induction false} WalkCharges(o: Options, st: State, path: string, node: Node, depth: nat, retain: bool)
    ensures var w := Walk(o, st, path, node, depth, retain); Charged(st, w.st, w.entry.row.subtree)
    decreases node, 1
  {
    var e := Enter(o, st, path, node, depth, retain);
    EnterCharges(o, st, path, node, depth, retain);
    EnterVisits(o, st, path, node, depth, retain);
    if e.proceed {
      var w := ReadBelow(o, e.st, path, node, depth, retain, e.row);
      BelowVisits(o, e.st, path, node, depth, retain, e.row);
      VisitsThen(st, e.st, w.st, [Arrival(o, path, node, depth)], Below(o, path, node, depth), [], w.st.Live());
      BelowCharges(o, e.st, path, node, depth, retain, e.row);
      ChargedThen(st, e.st, w.st, e.row.subtree, w.entry.row.below);
    }
  }

  lemma {:induction false} BelowCharges(o: Options, st: State, path: string, node: Node, depth: nat, retain: bool,
                                        row: Row)
    requires row.below == ZERO
    ensures var w := ReadBelow(o, st, path, node, depth, retain, row);
      Charged(st, w.st, w.entry.row.below) && w.entry.row.subtree == Add(row.subtree, w.entry.row.below)
    decreases node, 0
  {
    AddZero(row.subtree);
    var w := ReadBelow(o, st, path, node, depth, retain, row);
    if Lists(o, st, node, depth, row) {
      ListCharges(o, st.Checked(), path, node.listing.children, depth + 1, retain);
      SameCharged(st, w.st, st.Checked(), w.st, w.entry.row.below);
    } else {
      BelowLeaf(o, st, path, node, depth, retain, row);
      ChargedNothing(st, w.st);
    }
  }

  lemma {:induction false} ListCharges(o: Options, st: State, path: string, children: seq<Child>, depth: nat,
                                       retain: bool)
    requires depth > 0
    ensures var t := WalkList(o, st, path, children, depth, retain); Charged(st, t.st, t.below)
    decreases children, 0
  {
    if children == [] {
      ChargedNothing(st, st);
    } else {
      var front, c := children[..|children| - 1], children[|children| - 1];
      var t := WalkList(o, st, path, front, depth, retain);
      ListCharges(o, st, path, front, depth, retain);
      if !t.stopped {
        var turn := WalkChild(o, t.st, path, c, depth, retain);
        ChildCharges(o, t.st, path, c, depth, retain);
        ListStep(o, st, path, children, depth, retain);
        ChargedThen(st, t.st, turn.st, t.below, turn.bytes);
      }
    }
  }

  lemma {:induction false} ChildCharges(o: Options, st: State, path: string, child: Child, depth: nat, retain: bool)
    requires depth > 0
    ensures var t := WalkChild(o, st, path, child, depth, retain);
      Charged(st, t.st, t.bytes) && (t.kid.Some? ==> t.kid.value.row.subtree == t.bytes)
    decreases child, 2
  {
    var t := WalkChild(o, st, path, child, depth, retain);
    if Reaches(st, child) {
      TurnWalks(o, st, path, child, depth, retain);
      ReadyShape(o, st, path, child, depth, retain);
      var st1 := Ready(o, st, path, child, depth, retain);
      WalkCharges(o, st1, JoinPath(path, child.name), child.stat.node, depth, retain && st.retained < o.maxRetained);
      SameCharged(st, t.st, st1, TurnWalk(o, st, path, child, depth, retain).st, t.bytes);
    } else {
      TurnSkips(o, st, path, child, depth, retain);
      ChargedNothing(st, t.st);
    }
  }

  // ---- The retained tree ----

  /** How an entry shows in the tree: with its depth, so that a list of faces fixes the nesting too. */
  datatype Face = Face(path: string, kind: Kind, size: Bytes, depth: nat)

  function FaceOf(row: Row, depth: nat): Face {
    Face(row.path, row.kind, row.own, depth)
  }

  /** The tree in preorder, its root at the given depth. */
  function Faces(e: Entry, depth: nat): seq<Face> {
    [FaceOf(e.row, depth)] + FacesAll(e.children, depth + 1)
  }

  function FacesAll(es: seq<Entry>, depth: nat): seq<Face> {
    if es == [] then [] else FacesAll(es[..|es| - 1], depth) + Faces(es[|es| - 1], depth)
  }

  function VisitFace(v: Visit): Face {
    Face(v.path, v.info.kind, v.info.size, v.depth)
  }

  function VisitFaces(vs: seq<Visit>): seq<Face> {
    seq(|vs|, i requires 0 <= i < |vs| => VisitFace(vs[i]))
  }

  function Sum(es: seq<Entry>): Bytes {
    if es == [] then ZERO else Add(Sum(es[..|es| - 1]), es[|es| - 1].row.subtree)
  }

  predicate AtMost(a: Bytes, b: Bytes) {
    a.logical <= b.logical && a.disk <= b.disk
  }

  /** The entry was turned away before it was charged anything. */
  predicate Refused(row: Row) {
    row.note == Canceled || row.note == OutsideFileSystem
  }

  /** The subtree total is what the entry itself is charged plus what lies below it, and below it
      lies the sum of its children when none was omitted. */
  predicate Balanced(row: Row, children: seq<Entry>) {
    && (row.subtree == Add(row.own, row.below)
        || (row.subtree == Add(ZERO, row.below) && (row.duplicate || Refused(row))))
    && AtMost(Sum(children), row.below)
    && (row.childrenOmitted == 0 ==> Sum(children) == row.below)
  }

  /** Bytes are conserved at every entry of a retained tree. */
  predicate Conserved(e: Entry) {
    Balanced(e.row, e.children) && forall c | c in e.children :: Conserved(c)
  }

  /** The visits that get a place in the retained tree when `before` came first. */
  function Kept(before: seq<Visit>, vs: seq<Visit>, max: nat): seq<Visit> {
    if |before| >= max then [] else vs[..Min(|vs|, max - |before|)]
  }

  /** A retained tree is exactly the retained visits, each at its own depth, and conserves bytes throughout. */
  ghost predicate TreeOf(e: Entry, depth: nat, kept: seq<Visit>) {
    Conserved(e) && Faces(e, depth) == VisitFaces(kept)
  }

  /** The children kept so far are exactly the retained visits, and account for the bytes below. */
  ghost predicate KidsOf(kids: seq<Entry>, depth: nat, below: Bytes, childrenOmitted: nat, kept: seq<Visit>) {
    && FacesAll(kids, depth) == VisitFaces(kept)
    && AtMost(Sum(kids), below)
    && (childrenOmitted == 0 ==> Sum(kids) == below)
    && forall c | c in kids :: Conserved(c)
  }

  ghost predicate TurnOf(before: seq<Visit>, t: Turn, depth: nat, vs: seq<Visit>, max: nat) {
    match t.kid
    case Some(e) => !t.omitted && |before| < max && e.row.subtree == t.bytes && TreeOf(e, depth, Kept(before, vs, max))
    case None => Kept(before, vs, max) == [] && (!t.omitted ==> t.bytes == ZERO) && (vs == [] || |before| >= max)
  }

  lemma VisitFacesAppend(a: seq<Visit>, b: seq<Visit>)
    ensures VisitFaces(a + b) == VisitFaces(a) + VisitFaces(b)
  {
  }

  lemma OneFace(row: Row, v: Visit)
    requires row.path == v.path && row.kind == v.info.kind && row.own == v.info.size
    ensures [FaceOf(row, v.depth)] == VisitFaces([v])
  {
    assert VisitFaces([v])[0] == VisitFace(v);
  }

  lemma KidsAppend(kids: seq<Entry>, depth: nat, below: Bytes, childrenOmitted: nat, kept: seq<Visit>, kid: Entry,
                   more: seq<Visit>)
    requires KidsOf(kids, depth, below, childrenOmitted, kept) && TreeOf(kid, depth, more)
    ensures KidsOf(kids + [kid], depth, Add(below, kid.row.subtree), childrenOmitted, kept + more)
  {
    var longer := kids + [kid];
    assert longer[..|longer| - 1] == kids;
    VisitFacesAppend(kept, more);
  }

  lemma TurnKids(before: seq<Visit>, t: Tally, depth: nat, vs: seq<Visit>, c: Turn, more: seq<Visit>, max: nat)
    requires |before| <= max
    requires KidsOf(t.kids, depth, t.below, t.omitted, Kept(before, vs, max))
      && TurnOf(before + vs, c, depth, more, max)
    ensures var t' := TakeTurn(t, c); KidsOf(t'.kids, depth, t'.below, t'.omitted, Kept(before, vs + more, max))
  {
    var kept := Kept(before, vs, max);
    if c.kid.Some? {
      assert Kept(before, vs + more, max) == kept + Kept(before + vs, more, max);
      KidsAppend(t.kids, depth, t.below, t.omitted, kept, c.kid.value, Kept(before + vs, more, max));
    } else {
      assert Kept(before, vs + more, max) == kept;
      assert t.kids + [] == t.kids;
      AddZero(t.below);
    }
  }

  lemma RefusedTree(row: Row, v: Visit)
    requires row.path == v.path && row.kind == v.info.kind && row.own == v.info.size
    requires row.below == ZERO && row.childrenOmitted == 0
    requires row.subtree == ZERO && Refused(row)
    ensures TreeOf(Entry(row, []), v.depth, [v])
  {
    RefusedConserved(row);
    OneFace(row, v);
    assert [FaceOf(row, v.depth)] + [] == [FaceOf(row, v.depth)];
  }

  lemma RefusedConserved(row: Row)
    requires row.below == ZERO && row.childrenOmitted == 0
    requires row.subtree == ZERO && Refused(row)
    ensures Conserved(Entry(row, []))
  {
    NothingBelow(row);
    RefusedBalanced(row);
    ChildlessConserved(row);
  }

  lemma NothingBelow(row: Row)
    requires row.below == ZERO && row.subtree == ZERO
    ensures row.subtree == Add(ZERO, row.below)
  {
    AddZero(row.below);
  }

  lemma RefusedBalanced(row: Row)
    requires row.below == ZERO && row.childrenOmitted == 0
    requires row.subtree == Add(ZERO, row.below) && Refused(row)
    ensures Balanced(row, [])
  {
  }

  lemma ChildlessConserved(row: Row)
    requires Balanced(row, [])
    ensures Conserved(Entry(row, []))
  {
  }

  lemma WholeTree(before: seq<Visit>, v: Visit, ws: seq<Visit>, e: Entry, max: nat)
    requires |before| < max
    requires e.row.path == v.path && e.row.kind == v.info.kind && e.row.own == v.info.size
    requires e.row.subtree == Add(e.row.own, e.row.below)
      || (e.row.subtree == Add(ZERO, e.row.below) && e.row.duplicate)
    requires KidsOf(e.children, v.depth + 1, e.row.below, e.row.childrenOmitted, Kept(before + [v], ws, max))
    ensures TreeOf(e, v.depth, Kept(before, [v] + ws, max))
  {
    assert Kept(before, [v] + ws, max) == [v] + Kept(before + [v], ws, max);
    VisitFacesAppend([v], Kept(before + [v], ws, max));
    OneFace(e.row, v);
  }

  lemma {:induction false} WalkTree(o: Options, st: State, path: string, node: Node, depth: nat)
    requires Granted(o, st, true)
    ensures var w := Walk(o, st, path, node, depth, true);
      TreeOf(w.entry, depth, Kept(st.log, New(st, w.st), o.maxRetained))
    decreases node, 1
  {
    var e := Enter(o, st, path, node, depth, true);
    EnterTree(o, st, path, node, depth);
    if e.proceed {
      var w := ReadBelow(o, e.st, path, node, depth, true, e.row);
      BelowVisits(o, e.st, path, node, depth, true, e.row);
      BelowTree(o, e.st, path, node, depth, e.row);
      LogsAppend(st, e.st, w.st);
      WholeTree(st.log, Arrival(o, path, node, depth), New(e.st, w.st), w.entry, o.maxRetained);
    }
  }

  /** The root of a retained tree: the entry itself, and all of the tree where the walk goes no deeper. */
  lemma EnterTree(o: Options, st: State, path: string, node: Node, depth: nat)
    requires Granted(o, st, true)
    ensures var e := Enter(o, st, path, node, depth, true);
      var v := Arrival(o, path, node, depth);
      if e.proceed then
        && Settled(o, e.st) && e.st.log == st.log + [v] && |e.st.log| <= o.maxRetained
        && e.row.path == v.path && e.row.kind == v.info.kind && e.row.own == v.info.size
        && e.row.below == ZERO && e.row.childrenOmitted == 0
        && (e.row.subtree == e.row.own || (e.row.subtree == ZERO && e.row.duplicate))
        && e.row.kind == node.info.kind && !OutsideRootDevice(o, node.info, depth)
      else TreeOf(Entry(e.row, []), depth, Kept(st.log, New(st, e.st), o.maxRetained))
  {
    var e := Enter(o, st, path, node, depth, true);
    EnterVisits(o, st, path, node, depth, true);
    EnterSettles(o, st, path, node, depth, true);
    var v := Arrival(o, path, node, depth);
    EnterRow(o, st, path, node, depth, true, if st.Live() then v else v.(status := Interrupted));
    if !e.proceed {
      assert Kept(st.log, New(st, e.st), o.maxRetained) == New(st, e.st);
      RefusedTree(e.row, New(st, e.st)[0]);
    }
  }

  lemma {:induction false} BelowTree(o: Options, st: State, path: string, node: Node, depth: nat, row: Row)
    requires Settled(o, st) && |st.log| <= o.maxRetained
    requires row.below == ZERO && row.childrenOmitted == 0
    ensures var w := ReadBelow(o, st, path, node, depth, true, row);
      && KidsOf(w.entry.children, depth + 1, w.entry.row.below, w.entry.row.childrenOmitted,
        Kept(st.log, New(st, w.st), o.maxRetained))
      && w.entry.row.path == row.path && w.entry.row.kind == row.kind && w.entry.row.own == row.own
      && w.entry.row.duplicate == row.duplicate && w.entry.row.subtree == Add(row.subtree, w.entry.row.below)
    decreases node, 0
  {
    AddZero(row.subtree);
    var w := ReadBelow(o, st, path, node, depth, true, row);
    if Lists(o, st, node, depth, row) {
      ListTree(o, st.Checked(), path, node.listing.children, depth + 1);
      assert New(st, w.st) == New(st.Checked(), w.st);
    } else {
      BelowLeaf(o, st, path, node, depth, true, row);
      assert Kept(st.log, New(st, w.st), o.maxRetained) == [];
    }
  }

  lemma {:induction false} ListTree(o: Options, st: State, path: string, children: seq<Child>, depth: nat)
    requires depth > 0 && Settled(o, st) && |st.log| <= o.maxRetained
    ensures var t := WalkList(o, st, path, children, depth, true);
      KidsOf(t.kids, depth, t.below, t.omitted, Kept(st.log, New(st, t.st), o.maxRetained))
    decreases children, 0
  {
    if children == [] {
      assert Kept(st.log, New(st, st), o.maxRetained) == [];
    } else {
      var front, c := children[..|children| - 1], children[|children| - 1];
      var t := WalkList(o, st, path, front, depth, true);
      ListTree(o, st, path, front, depth);
      if !t.stopped {
        var turn := WalkChild(o, t.st, path, c, depth, true);
        ListStep(o, st, path, children, depth, true);
        ListSettles(o, st, path, front, depth, true);
        ChildTree(o, t.st, path, c, depth);
        TurnKids(st.log, t, depth, New(st, t.st), turn, New(t.st, turn.st), o.maxRetained);
      }
    }
  }

  lemma {:induction false} ChildTree(o: Options, st: State, path: string, child: Child, depth: nat)
    requires depth > 0 && Settled(o, st)
    ensures var t := WalkChild(o, st, path, child, depth, true); TurnOf(st.log, t, depth, New(st, t.st), o.maxRetained)
    decreases child, 2
  {
    var t := WalkChild(o, st, path, child, depth, true);
    if Reaches(st, child) {
      TurnWalks(o, st, path, child, depth, true);
      ReadyShape(o, st, path, child, depth, true);
      if st.retained < o.maxRetained {
        var st1 := Ready(o, st, path, child, depth, true);
        CheckedSettled(o, st);
        CheckedSettled(o, st.Checked());
        GrantGrants(o, st.Checked().Checked(), JoinPath(path, child.name), depth, true);
        WalkTree(o, st1, JoinPath(path, child.name), child.stat.node, depth);
        assert New(st, t.st) == New(st1, TurnWalk(o, st, path, child, depth, true).st);
      }
    } else {
      TurnSkips(o, st, path, child, depth, true);
      assert New(st, t.st) == [];
    }
  }

  // ---- Every entry hangs under its own parent ----

  /** The tree is a part of the file tree: each child stands for an entry of its parent's own listing. */
  ghost predicate Hangs(e: Entry, path: string, node: Node)
    decreases e, 0
  {
    && e.row.path == path && e.row.kind == node.info.kind && e.row.own == node.info.size
    && forall i | 0 <= i < |e.children| ::
      node.listing.Listed? && HangsUnder(e.children[i], path, node.listing.children)
  }

  ghost predicate HangsUnder(kid: Entry, parent: string, listing: seq<Child>)
    decreases kid, 2
  {
    exists j :: 0 <= j < |listing| && Shows(kid, parent, listing[j])
  }

  ghost predicate Shows(kid: Entry, parent: string, child: Child)
    decreases kid, 1
  {
    !child.excluded && child.stat.Present? && Hangs(kid, JoinPath(parent, child.name), child.stat.node)
  }

  ghost predicate AllHang(kids: seq<Entry>, parent: string, listing: seq<Child>) {
    forall i | 0 <= i < |kids| :: HangsUnder(kids[i], parent, listing)
  }

  lemma {:induction false} WalkHangs(o: Options, st: State, path: string, node: Node, depth: nat, retain: bool)
    ensures Hangs(Walk(o, st, path, node, depth, retain).entry, path, node)
    decreases node, 1
  {
    var e := Enter(o, st, path, node, depth, retain);
    EnterShape(o, st, path, node, depth, retain);
    if e.proceed {
      BelowHangs(o, e.st, path, node, depth, retain, e.row);
    }
  }

  lemma {:induction false} BelowHangs(o: Options, st: State, path: string, node: Node, depth: nat, retain: bool,
                                      row: Row)
    requires row.path == path && row.kind == node.info.kind && row.own == node.info.size
    requires !OutsideRootDevice(o, node.info, depth)
    ensures Hangs(ReadBelow(o, st, path, node, depth, retain, row).entry, path, node)
    decreases node, 0
  {
    if Lists(o, st, node, depth, row) {
      ListHangs(o, st.Checked(), path, node.listing.children, depth + 1, retain);
    } else {
      BelowLeaf(o, st, path, node, depth, retain, row);
    }
  }

  lemma {:induction false} ListHangs(o: Options, st: State, path: string, children: seq<Child>, depth: nat,
                                     retain: bool)
    requires depth > 0
    ensures AllHang(WalkList(o, st, path, children, depth, retain).kids, path, children)
    decreases children, 0
  {
    if children != [] {
      var front, c := children[..|children| - 1], children[|children| - 1];
      var t := WalkList(o, st, path, front, depth, retain);
      ListHangs(o, st, path, front, depth, retain);
      HangInMore(t.kids, path, front, c);
      assert children == front + [c];
      if !t.stopped {
        var turn := WalkChild(o, t.st, path, c, depth, retain);
        ListUnfolds(o, st, path, children, depth, retain);
        ChildHangs(o, t.st, path, c, depth, retain);
        if turn.kid.Some? {
          assert Shows(turn.kid.value, path, children[|children| - 1]);
        }
      }
    }
  }

  lemma HangInMore(kids: seq<Entry>, parent: string, listing: seq<Child>, c: Child)
    requires AllHang(kids, parent, listing)
    ensures AllHang(kids, parent, listing + [c])
  {
    forall i | 0 <= i < |kids| ensures HangsUnder(kids[i], parent, listing + [c]) {
      assert HangsUnder(kids[i], parent, listing);
      var j :| 0 <= j < |listing| && Shows(kids[i], parent, listing[j]);
      assert Shows(kids[i], parent, (listing + [c])[j]);
    }
  }

  lemma {:induction false} ChildHangs(o: Options, st: State, path: string, child: Child, depth: nat, retain: bool)
    requires depth > 0
    ensures var t := WalkChild(o, st, path, child, depth, retain); t.kid.Some? ==> Shows(t.kid.value, path, child)
    decreases child, 2
  {
    if Reaches(st, child) {
      TurnWalks(o, st, path, child, depth, retain);
      var st1 := Ready(o, st, path, child, depth, retain);
      WalkHangs(o, st1, JoinPath(path, child.name), child.stat.node, depth, retain && st.retained < o.maxRetained);
    } else {
      TurnSkips(o, st, path, child, depth, retain);
    }
  }

  /** f is one deeper than p, and its path is p's with one more name. */
  ghost predicate ChildFace(p: Face, f: Face) {
    f.depth == p.depth + 1 && exists name :: f.path == JoinPath(p.path, name)
  }

  /** The parent of a face in preorder: the last one before it that is not as deep. */
  ghost predicate ParentAt(fs: seq<Face>, p: int, i: int) {
    && 0 <= p < i < |fs| && ChildFace(fs[p], fs[i])
    && forall j | p < j < i :: fs[j].depth >= fs[i].depth
  }

  ghost predicate HasParent(fs: seq<Face>, i: int) {
    exists p :: ParentAt(fs, p, i)
  }

  /** Either a child of the given path at the given depth, or a face with its parent in the list. */
  ghost predicate Placed(fs: seq<Face>, path: string, depth: nat, i: int)
    requires 0 <= i < |fs|
  {
    && fs[i].depth >= depth
    && ((fs[i].depth == depth && exists name :: fs[i].path == JoinPath(path, name))
      || (fs[i].depth > depth && HasParent(fs, i)))
  }

  lemma HasParentShifted(a: seq<Face>, b: seq<Face>, i: nat)
    requires i < |b| && HasParent(b, i)
    ensures HasParent(a + b, |a| + i)
  {
    var p :| ParentAt(b, p, i);
    assert ParentAt(a + b, |a| + p, |a| + i);
  }

  lemma HasParentBefore(a: seq<Face>, b: seq<Face>, i: nat)
    requires i < |a| && HasParent(a, i)
    ensures HasParent(a + b, i)
  {
    var p :| ParentAt(a, p, i);
    assert ParentAt(a + b, p, i);
  }

  lemma {:induction false} KidsPlaced(kids: seq<Entry>, path: string, listing: seq<Child>, depth: nat)
    requires AllHang(kids, path, listing)
    ensures forall i | 0 <= i < |FacesAll(kids, depth)| :: Placed(FacesAll(kids, depth), path, depth, i)
    decreases kids
  {
    if kids != [] {
      var front, last := kids[..|kids| - 1], kids[|kids| - 1];
      KidsPlaced(front, path, listing, depth);
      assert HangsUnder(last, path, listing);
      var j :| 0 <= j < |listing| && Shows(last, path, listing[j]);
      TreePlaced(last, JoinPath(path, listing[j].name), listing[j].stat.node, depth);
      AppendPlaced(FacesAll(front, depth), Faces(last, depth), path, listing[j].name, depth);
    }
  }

  lemma AppendPlaced(a: seq<Face>, b: seq<Face>, path: string, name: string, depth: nat)
    requires forall i | 0 <= i < |a| :: Placed(a, path, depth, i)
    requires b != [] && b[0].depth == depth && b[0].path == JoinPath(path, name)
    requires forall i | 0 < i < |b| :: b[i].depth > depth && HasParent(b, i)
    ensures forall i | 0 <= i < |a + b| :: Placed(a + b, path, depth, i)
  {
    forall i | 0 <= i < |a + b| ensures Placed(a + b, path, depth, i) {
      if i < |a| {
        assert Placed(a, path, depth, i) && (a + b)[i] == a[i];
        if a[i].depth > depth {
          HasParentBefore(a, b, i);
        }
      } else if i == |a| {
        assert (a + b)[i] == b[0];
      } else {
        assert (a + b)[i] == b[i - |a|];
        HasParentShifted(a, b, i - |a|);
      }
    }
  }

  lemma {:induction false} TreePlaced(e: Entry, path: string, node: Node, depth: nat)
    requires Hangs(e, path, node)
    ensures Faces(e, depth)[0].depth == depth && Faces(e, depth)[0].path == path
    ensures forall i | 0 < i < |Faces(e, depth)| :: Faces(e, depth)[i].depth > depth && HasParent(Faces(e, depth), i)
    decreases e
  {
    var below, root := FacesAll(e.children, depth + 1), FaceOf(e.row, depth);
    if e.children != [] {
      assert HangsUnder(e.children[0], path, node.listing.children);
      KidsPlaced(e.children, path, node.listing.children, depth + 1);
    }
    forall i | 0 < i < |[root] + below| ensures ([root] + below)[i].depth > depth && HasParent([root] + below, i) {
      assert Placed(below, path, depth + 1, i - 1);
      if below[i - 1].depth == depth + 1 {
        TopHasParent(root, below, path, depth + 1, i - 1);
      } else {
        HasParentShifted([root], below, i - 1);
      }
    }
  }

  lemma TopHasParent(root: Face, below: seq<Face>, path: string, depth: nat, i: nat)
    requires i < |below| && root.path == path && root.depth + 1 == depth == below[i].depth
    requires forall j | 0 <= j < |below| :: Placed(below, path, depth, j)
    ensures HasParent([root] + below, i + 1)
  {
    var fs := [root] + below;
    assert Placed(below, path, depth, i);
    assert ChildFace(fs[0], fs[i + 1]);
    forall j | 0 < j < i + 1 ensures fs[j].depth >= fs[i + 1].depth {
      assert Placed(below, path, depth, j - 1);
    }
    assert ParentAt(fs, 0, i + 1);
  }

  /** The retained visits are closed under parents: each but the first has its parent among those before
      it, and hangs under that parent in the retained tree. */
  lemma RetainedTreeIsClosed(o: Options, path: string, node: Node, checks: Option<nat>)
    requires o.maxRetained >= 1
    ensures var w := Walk(o, Begin(checks), path, node, 0, true);
      var kept := VisitFaces(w.st.log[..Min(|w.st.log|, o.maxRetained)]);
      Faces(w.entry, 0) == kept && forall i | 0 < i < |kept| :: HasParent(kept, i)
  {
    ScanIsAccountedFor(o, path, node, checks);
    TreePlaced(Walk(o, Begin(checks), path, node, 0, true).entry, path, node, 0);
  }

  // ---- The top lists ----

  datatype Line = Line(path: string, kind: Kind, subtree: Bytes)

  /** Every directory and file below the root with its subtree total, children before parents. */
  function Lines(o: Options, seen: set<InodeKey>, path: string, node: Node, depth: nat): seq<Line>
    decreases node, 1
  {
    var v := Arrival(o, path, node, depth);
    if v.status == Foreign then []
    else LinesBelow(o, Meet(seen, v), path, node, depth) + OwnLine(o, seen, path, node, depth)
  }

  function OwnLine(o: Options, seen: set<InodeKey>, path: string, node: Node, depth: nat): seq<Line> {
    if depth > 0 && (node.info.kind == Directory || node.info.kind == File)
    then [Line(path, node.info.kind, Charges(seen, Preorder(o, path, node, depth)))] else []
  }

  function LinesBelow(o: Options, seen: set<InodeKey>, path: string, node: Node, depth: nat): seq<Line>
    decreases node, 0
  {
    if Descends(o, node, depth) then LinesAll(o, seen, path, node.listing.children, depth + 1) else []
  }

  function LinesChild(o: Options, seen: set<InodeKey>, parent: string, child: Child, depth: nat): seq<Line>
    decreases child, 2
  {
    if child.excluded || child.stat.LstatFailed? then []
    else Lines(o, seen, JoinPath(parent, child.name), child.stat.node, depth)
  }

  function LinesAll(o: Options, seen: set<InodeKey>, parent: string, children: seq<Child>, depth: nat): seq<Line>
    decreases children, 0
  {
    if children == [] then []
    else
      var front, c := children[..|children| - 1], children[|children| - 1];
      LinesAll(o, seen, parent, front, depth)
      + LinesChild(o, MeetAll(seen, PreorderAll(o, parent, front, depth)), parent, c, depth)
  }

  function RowLines(rows: seq<Row>): seq<Line> {
    seq(|rows|, i requires 0 <= i < |rows| => Line(rows[i].path, rows[i].kind, rows[i].subtree))
  }

  function OfKind(rows: seq<Row>, kind: Kind): seq<Row> {
    if rows == [] then []
    else OfKind(rows[..|rows| - 1], kind) + if rows[|rows| - 1].kind == kind then [rows[|rows| - 1]] else []
  }

  /** The two bounded lists are what the amortised insertion made of everything offered so far. */
  ghost predicate TopsTracked(o: Options, st: State) {
    && st.topDirs == RetainAll(OfKind(st.offered, Directory), o.limit)
    && st.topFiles == RetainAll(OfKind(st.offered, File), o.limit)
  }

  lemma OfKindAppend(rows: seq<Row>, row: Row, kind: Kind)
    ensures OfKind(rows + [row], kind) == if row.kind == kind then OfKind(rows, kind) + [row] else OfKind(rows, kind)
  {
    var front := OfKind(rows, kind);
    assert (rows + [row])[..|rows|] == rows;
    assert front + [] == front;
  }

  lemma RetainAllAppend(rows: seq<Row>, row: Row, limit: int)
    ensures RetainAll(rows + [row], limit) == RetainTopEntry(RetainAll(rows, limit), row, limit)
  {
    assert (rows + [row])[..|rows|] == rows;
  }

  /** One more row offered, for one of the two lists. */
  lemma TopTracks(rows: seq<Row>, row: Row, kind: Kind, limit: int)
    ensures var top := RetainAll(OfKind(rows, kind), limit);
      RetainAll(OfKind(rows + [row], kind), limit) == if row.kind == kind then RetainTopEntry(top, row, limit) else top
  {
    OfKindAppend(rows, row, kind);
    RetainAllAppend(OfKind(rows, kind), row, limit);
  }

  lemma OfferTracks(o: Options, st: State, row: Row, depth: nat)
    requires TopsTracked(o, st)
    ensures TopsTracked(o, st.Offer(o, row, depth))
  {
    TopTracks(st.offered, row, Directory, o.limit);
    TopTracks(st.offered, row, File, o.limit);
  }

  lemma {:induction false} WalkTracks(o: Options, st: State, path: string, node: Node, depth: nat, retain: bool)
    requires TopsTracked(o, st)
    ensures TopsTracked(o, Walk(o, st, path, node, depth, retain).st)
    decreases node, 1
  {
    var e := Enter(o, st, path, node, depth, retain);
    EnterShape(o, st, path, node, depth, retain);
    SameTracked(o, st, e.st);
    if e.proceed {
      var w := ReadBelow(o, e.st, path, node, depth, retain, e.row);
      BelowTracks(o, e.st, path, node, depth, retain, e.row);
      OfferTracks(o, w.st, w.entry.row, depth);
    }
  }

  lemma {:induction false} BelowTracks(o: Options, st: State, path: string, node: Node, depth: nat, retain: bool,
                                       row: Row)
    requires TopsTracked(o, st)
    ensures TopsTracked(o, ReadBelow(o, st, path, node, depth, retain, row).st)
    decreases node, 0
  {
    if Lists(o, st, node, depth, row) {
      SameTracked(o, st, st.Checked());
      ListTracks(o, st.Checked(), path, node.listing.children, depth + 1, retain);
    } else {
      BelowLeaf(o, st, path, node, depth, retain, row);
      SameTracked(o, st, ReadBelow(o, st, path, node, depth, retain, row).st);
    }
  }

  lemma {:induction false} ListTracks(o: Options, st: State, path: string, children: seq<Child>, depth: nat,
                                      retain: bool)
    requires depth > 0 && TopsTracked(o, st)
    ensures TopsTracked(o, WalkList(o, st, path, children, depth, retain).st)
    decreases children, 0
  {
    if children != [] {
      var front, c := children[..|children| - 1], children[|children| - 1];
      var t := WalkList(o, st, path, front, depth, retain);
      ListTracks(o, st, path, front, depth, retain);
      if !t.stopped {
        ChildTracks(o, t.st, path, c, depth, retain);
      }
    }
  }

  lemma {:induction false} ChildTracks(o: Options, st: State, path: string, child: Child, depth: nat, retain: bool)
    requires depth > 0 && TopsTracked(o, st)
    ensures TopsTracked(o, WalkChild(o, st, path, child, depth, retain).st)
    decreases child, 2
  {
    if Reaches(st, child) {
      TurnWalks(o, st, path, child, depth, retain);
      ReadyShape(o, st, path, child, depth, retain);
      var st1 := Ready(o, st, path, child, depth, retain);
      var w := TurnWalk(o, st, path, child, depth, retain);
      SameTracked(o, st, st1);
      WalkTracks(o, st1, JoinPath(path, child.name), child.stat.node, depth, retain && st.retained < o.maxRetained);
      SameTracked(o, w.st, w.st.Checked());
    } else {
      TurnSkips(o, st, path, child, depth, retain);
      SameTracked(o, st, WalkChild(o, st, path, child, depth, retain).st);
    }
  }

  lemma SameTracked(o: Options, st: State, st': State)
    requires TopsTracked(o, st)
    requires st.offered == st'.offered && st.topDirs == st'.topDirs && st.topFiles == st'.topFiles
    ensures TopsTracked(o, st')
  {
  }

  ghost predicate Offers(st: State, st': State, lines: seq<Line>, complete: bool) {
    && |st.offered| <= |st'.offered| && st'.offered[..|st.offered|] == st.offered
    && (complete ==> RowLines(st'.offered[|st.offered|..]) == lines)
  }

  lemma OffersThen(st: State, st1: State, st2: State, lines1: seq<Line>, lines2: seq<Line>, complete: bool)
    requires Offers(st, st1, lines1, true) && Offers(st1, st2, lines2, complete)
    ensures Offers(st, st2, lines1 + lines2, complete)
  {
    var a, b := st1.offered[|st.offered|..], st2.offered[|st1.offered|..];
    assert st2.offered[|st.offered|..] == a + b;
    assert RowLines(a + b) == RowLines(a) + RowLines(b);
  }

  lemma OffersNothing(st: State, st': State, lines: seq<Line>, complete: bool)
    requires st.offered == st'.offered
    requires complete ==> lines == []
    ensures Offers(st, st', lines, complete)
  {
  }

  lemma OffersWeaken(st: State, st': State, lines: seq<Line>, lines': seq<Line>, complete: bool)
    requires Offers(st, st', lines, complete)
    ensures Offers(st, st', lines', false)
  {
  }

  lemma OfferOffers(o: Options, st: State, row: Row, depth: nat)
    ensures Offers(st, st.Offer(o, row, depth),
      if depth > 0 && (row.kind == Directory || row.kind == File) then [Line(row.path, row.kind, row.subtree)]
      else [], true)
  {
  }

  lemma {:induction false} WalkOffers(o: Options, st: State, path: string, node: Node, depth: nat, retain: bool)
    ensures var w := Walk(o, st, path, node, depth, retain);
      Offers(st, w.st, Lines(o, st.hardLinks, path, node, depth), w.st.Live())
    decreases node, 1
  {
    var e := Enter(o, st, path, node, depth, retain);
    if e.proceed {
      var w := ReadBelow(o, e.st, path, node, depth, retain, e.row);
      var below := LinesBelow(o, e.st.hardLinks, path, node, depth);
      BelowOffers(o, e.st, path, node, depth, retain, e.row);
      OfferOffers(o, w.st, w.entry.row, depth);
      var st' := w.st.Offer(o, w.entry.row, depth);
      assert Offers(st, w.st, below, w.st.Live());
      if w.st.Live() {
        WalkCharges(o, st, path, node, depth, retain);
        WalkVisits(o, st, path, node, depth, retain);
        OffersThen(st, w.st, st', below, OwnLine(o, st.hardLinks, path, node, depth), true);
      } else {
        OffersLate(st, w.st, st', below, Lines(o, st.hardLinks, path, node, depth));
      }
    } else {
      OffersNothing(st, e.st, Lines(o, st.hardLinks, path, node, depth), e.st.Live());
    }
  }

  lemma OffersLate(st: State, st1: State, st2: State, lines: seq<Line>, lines': seq<Line>)
    requires Offers(st, st1, lines, false) && |st1.offered| <= |st2.offered|
      && st2.offered[..|st1.offered|] == st1.offered
    ensures Offers(st, st2, lines', false)
  {
  }

  lemma {:induction false} BelowOffers(o: Options, st: State, path: string, node: Node, depth: nat, retain: bool,
                                       row: Row)
    requires row.kind == node.info.kind && !OutsideRootDevice(o, node.info, depth)
    ensures var w := ReadBelow(o, st, path, node, depth, retain, row);
      Offers(st, w.st, LinesBelow(o, st.hardLinks, path, node, depth), w.st.Live())
      && w.entry.row.path == row.path && w.entry.row.kind == row.kind
    decreases node, 0
  {
    var w := ReadBelow(o, st, path, node, depth, retain, row);
    if Lists(o, st, node, depth, row) {
      var t := WalkList(o, st.Checked(), path, node.listing.children, depth + 1, retain);
      OffersNothing(st, st.Checked(), [], true);
      ListOffers(o, st.Checked(), path, node.listing.children, depth + 1, retain);
      ListVisits(o, st.Checked(), path, node.listing.children, depth + 1, retain);
      if t.stopped {
        OffersWeaken(st, t.st, [], LinesBelow(o, st.hardLinks, path, node, depth), false);
      }
    } else {
      BelowLeaf(o, st, path, node, depth, retain, row);
      OffersNothing(st, w.st, LinesBelow(o, st.hardLinks, path, node, depth), w.st.Live());
    }
  }

  lemma {:induction false} ListOffers(o: Options, st: State, path: string, children: seq<Child>, depth: nat,
                                      retain: bool)
    requires depth > 0
    ensures var t := WalkList(o, st, path, children, depth, retain);
      Offers(st, t.st, LinesAll(o, st.hardLinks, path, children, depth), !t.stopped)
    decreases children, 0
  {
    if children != [] {
      var front, c := children[..|children| - 1], children[|children| - 1];
      var t := WalkList(o, st, path, front, depth, retain);
      ListOffers(o, st, path, front, depth, retain);
      if t.stopped {
        OffersWeaken(st, t.st, LinesAll(o, st.hardLinks, path, front, depth),
          LinesAll(o, st.hardLinks, path, children, depth), false);
      } else {
        ListCharges(o, st, path, front, depth, retain);
        ListVisits(o, st, path, front, depth, retain);
        ChildOffers(o, t.st, path, c, depth, retain);
        var turn := WalkChild(o, t.st, path, c, depth, retain);
        OffersThen(st, t.st, turn.st, LinesAll(o, st.hardLinks, path, front, depth),
          LinesChild(o, t.st.hardLinks, path, c, depth), !turn.stop);
      }
    }
  }

  lemma {:induction false} ChildOffers(o: Options, st: State, path: string, child: Child, depth: nat, retain: bool)
    requires depth > 0
    ensures var t := WalkChild(o, st, path, child, depth, retain);
      Offers(st, t.st, LinesChild(o, st.hardLinks, path, child, depth), !t.stop)
    decreases child, 2
  {
    var t := WalkChild(o, st, path, child, depth, retain);
    if Reaches(st, child) {
      TurnWalks(o, st, path, child, depth, retain);
      ReadyShape(o, st, path, child, depth, retain);
      var st1 := Ready(o, st, path, child, depth, retain);
      OffersNothing(st, st1, [], true);
      WalkOffers(o, st1, JoinPath(path, child.name), child.stat.node, depth, retain && st.retained < o.maxRetained);
      OffersNothing(TurnWalk(o, st, path, child, depth, retain).st, t.st, [], true);
    } else {
      TurnSkips(o, st, path, child, depth, retain);
      OffersNothing(st, t.st, LinesChild(o, st.hardLinks, path, child, depth), !t.stop);
    }
  }

  // ---- A whole scan ----

  /** The scanner as Scan hands it to the walk of the root: one check made, the root's place reserved. */
  function Begin(checks: Option<nat>): State {
    START.(checksLeft := checks).Checked().(retained := 1)
  }

  /** Every scan, cancelled or not: totals, counters, one-time records and the retained tree all
      describe one initial part of the complete visit list. */
  lemma ScanIsAccountedFor(o: Options, path: string, node: Node, checks: Option<nat>)
    requires o.maxRetained >= 1
    ensures var w := Walk(o, Begin(checks), path, node, 0, true);
      var vs := w.st.log;
      && vs != [] && Within(vs, Preorder(o, path, node, 0))
      && w.entry.row.subtree == Charges({}, vs)
      && w.st.visited == |vs| && w.st.retained == Min(|vs|, o.maxRetained)
      && w.st.visited == w.st.retained + w.st.omitted
      && TreeOf(w.entry, 0, vs[..w.st.retained]) && Hangs(w.entry, path, node)
      && Occurrences(w.st.errors, KindRetentionLimit) == (if w.st.omitted > 0 then 1 else 0)
      && Occurrences(w.st.errors, KindCanceled) <= 1
      && (w.st.Live() ==> vs == Preorder(o, path, node, 0) && Occurrences(w.st.errors, KindCanceled) == 0)
  {
    var st := Begin(checks);
    assert Granted(o, st, true);
    WalkSettles(o, st, path, node, 0, true);
    WalkVisits(o, st, path, node, 0, true);
    WalkCharges(o, st, path, node, 0, true);
    WalkTree(o, st, path, node, 0);
    WalkHangs(o, st, path, node, 0, true);
    var w := Walk(o, st, path, node, 0, true);
    assert New(st, w.st) == w.st.log;
    assert Kept([], w.st.log, o.maxRetained) == w.st.log[..w.st.retained];
  }

  /** The bounded top lists of a scan that ran to its end are the cut of the full ranking of every
      directory and file below the root by subtree total. */
  lemma ScanTopsAreExact(o: Options, path: string, node: Node, checks: Option<nat>)
    ensures var st := Walk(o, Begin(checks), path, node, 0, true).st;
      && LimitEntries(st.topDirs, o.limit) == LimitEntries(OfKind(st.offered, Directory), o.limit)
      && LimitEntries(st.topFiles, o.limit) == LimitEntries(OfKind(st.offered, File), o.limit)
      && |st.topDirs| <= 2 * EffectiveLimit(o.limit) && |st.topFiles| <= 2 * EffectiveLimit(o.limit)
      && (st.Live() ==> RowLines(st.offered) == Lines(o, {}, path, node, 0))
  {
    var st := Begin(checks);
    var st' := Walk(o, st, path, node, 0, true).st;
    assert TopsTracked(o, st);
    WalkTracks(o, st, path, node, 0, true);
    BoundedBufferIsExact(OfKind(st'.offered, Directory), o.limit);
    BoundedBufferIsExact(OfKind(st'.offered, File), o.limit);
    WalkOffers(o, st, path, node, 0, true);
    assert st'.offered[0..] == st'.offered;
  }

  lemma {:induction false} VisitsIgnoreRetention(o: Options, max: nat, path: string, node: Node, depth: nat)
    ensures Preorder(o.(maxRetained := max), path, node, depth) == Preorder(o, path, node, depth)
    decreases node, 1
  {
    if Descends(o, node, depth) {
      ListIgnoresRetention(o, max, path, node.listing.children, depth + 1);
    }
  }

  lemma {:induction false} ListIgnoresRetention(o: Options, max: nat, path: string, children: seq<Child>, depth: nat)
    ensures PreorderAll(o.(maxRetained := max), path, children, depth) == PreorderAll(o, path, children, depth)
    decreases children, 0
  {
    if children != [] {
      var c := children[0];
      if !c.excluded && c.stat.Present? {
        VisitsIgnoreRetention(o, max, JoinPath(path, c.name), c.stat.node, depth);
      }
      ListIgnoresRetention(o, max, path, children[1..], depth);
    }
  }

  /** The totals of scans that run to their end do not depend on how many entries are retained, nor
      on the order in which directories list their entries. */
  lemma TotalsAreIntrinsic(o: Options, max: nat, path: string, node: Node, xs: seq<Exchange>)
    requires o.maxRetained >= 1 && max >= 1
    requires LinksAgree(Preorder(o, path, node, 0))
    ensures Walk(o.(maxRetained := max), Begin(None), path, ReorderAll(node, xs), 0, true).entry.row.subtree
         == Walk(o, Begin(None), path, node, 0, true).entry.row.subtree
  {
    var node' := ReorderAll(node, xs);
    ScanIsAccountedFor(o, path, node, None);
    ScanIsAccountedFor(o.(maxRetained := max), path, node', None);
    NeverCancelled(o, Begin(None), path, node, 0, true);
    NeverCancelled(o.(maxRetained := max), Begin(None), path, node', 0, true);
    VisitsIgnoreRetention(o, max, path, node', 0);
    ListingOrderIrrelevant(o, path, node, xs);
  }

  lemma {:induction false} NeverCancelled(o: Options, st: State, path: string, node: Node, depth: nat, retain: bool)
    requires st.checksLeft.None?
    ensures Walk(o, st, path, node, depth, retain).st.checksLeft.None?
    decreases node, 1
  {
    var e := Enter(o, st, path, node, depth, retain);
    if e.proceed && Lists(o, e.st, node, depth, e.row) {
      ListNeverCancelled(o, e.st.Checked(), path, node.listing.children, depth + 1, retain);
    }
  }

  lemma {:induction false} ListNeverCancelled(o: Options, st: State, path: string, children: seq<Child>, depth: nat,
                                              retain: bool)
    requires depth > 0 && st.checksLeft.None?
    ensures WalkList(o, st, path, children, depth, retain).st.checksLeft.None?
    decreases children, 0
  {
    if children != [] {
      var front, c := children[..|children| - 1], children[|children| - 1];
      var t := WalkList(o, st, path, front, depth, retain);
      ListNeverCancelled(o, st, path, front, depth, retain);
      if !t.stopped && Reaches(t.st, c) {
        TurnWalks(o, t.st, path, c, depth, retain);
        NeverCancelled(o, Ready(o, t.st, path, c, depth, retain), JoinPath(path, c.name), c.stat.node, depth,
          retain && t.st.retained < o.maxRetained);
      }
    }
  }

  /** Once a listing has been cut short, the entries after the cut change nothing. */
  lemma {:induction false} StoppedEarly(o: Options, st: State, path: string, children: seq<Child>, i: nat, depth: nat,
                                        retain: bool)
    requires depth > 0 && i <= |children| && WalkList(o, st, path, children[..i], depth, retain).stopped
    ensures WalkList(o, st, path, children, depth, retain) == WalkList(o, st, path, children[..i], depth, retain)
    decreases |children|
  {
    if i < |children| {
      var front := children[..|children| - 1];
      assert front[..i] == children[..i];
      StoppedEarly(o, st, path, front, i, depth, retain);
    } else {
      assert children[..i] == children;
    }
  }

  /** So a loop over the listing has its result once it is stopped or through. */
  lemma WholeList(o: Options, st: State, path: string, children: seq<Child>, i: nat, depth: nat, retain: bool)
    requires depth > 0 && i <= |children|
    requires i == |children| || WalkList(o, st, path, children[..i], depth, retain).stopped
    ensures WalkList(o, st, path, children, depth, retain) == WalkList(o, st, path, children[..i], depth, retain)
  {
    if i < |children| {
      StoppedEarly(o, st, path, children, i, depth, retain);
    } else {
      assert children[..i] == children;
    }
  }
}
