/**
  The recursive disk scanner of internal/diskprofile/scan.go, updating its fields in place. Each
  method is the step of DiskWalk it names; Scan returns what ScanIsAccountedFor and
  ScanTopsAreExact describe.
 */
module DiskScan {
  import opened Common
  import opened TopEntries
  import opened DiskTree
  import opened DiskWalk

  const MAX_TOP_ENTRIES := 1000
  const DEFAULT_MAX_RETAINED := 10000
  const MAX_RETAINED_LIMIT := 50000

  function NormalizeLimit(limit: int): (r: int)
    ensures 1 <= r <= MAX_TOP_ENTRIES
    ensures 1 <= limit <= MAX_TOP_ENTRIES ==> r == limit
  {
    if limit <= 0 then DEFAULT_LIMIT else if limit > MAX_TOP_ENTRIES then MAX_TOP_ENTRIES else limit
  }

  function NormalizeMaxRetained(n: int): (r: nat)
    ensures 1 <= r <= MAX_RETAINED_LIMIT
    ensures 1 <= n <= MAX_RETAINED_LIMIT ==> r == n
  {
    if n <= 0 then DEFAULT_MAX_RETAINED else if n > MAX_RETAINED_LIMIT then MAX_RETAINED_LIMIT else n
  }

  datatype ScanResult = ScanResult(
    total: Bytes, visited: nat, retained: nat, omitted: nat, root: Entry,
    topDirs: seq<Row>, topFiles: seq<Row>, errors: seq<ScanError>, canceled: bool)

  class Scanner {
    const opts: Options
    var hardLinks: set<InodeKey>
    var errors: seq<ScanError>
    var topDirs: seq<Row>
    var topFiles: seq<Row>
    var visited: nat
    var retained: nat
    var omitted: nat
    var retentionLimitRecorded: bool
    var canceledRecorded: bool
    var checksLeft: Option<nat>

    ghost var log: seq<Visit>
    ghost var offered: seq<Row>

    ghost function View(): State
      reads this
    {
      State(hardLinks, errors, topDirs, topFiles, visited, retained, omitted,
        retentionLimitRecorded, canceledRecorded, checksLeft, log, offered)
    }

    constructor (o: Options, checks: Option<nat>)
      ensures opts == o && View() == START.(checksLeft := checks)
    {
      opts, checksLeft := o, checks;
      hardLinks, errors, topDirs, topFiles := {}, [], [], [];
      visited, retained, omitted := 0, 0, 0;
      retentionLimitRecorded, canceledRecorded := false, false;
      log, offered := [], [];
    }

    method ContextErr() returns (canceled: bool)
      modifies this`checksLeft
      ensures canceled == !old(View()).Live()
      ensures View() == old(View()).Checked()
    {
      canceled := checksLeft == Some(0);
      if !canceled && checksLeft.Some? {
        checksLeft := Some(checksLeft.value - 1);
      }
    }

    method Record(path: string, kind: ErrorKind, depth: nat)
      modifies this`errors
      ensures View() == old(View()).Record(path, kind, depth)
    {
      errors := errors + [ScanError(path, kind, depth)];
    }

    method RecordCanceled(path: string, depth: nat)
      modifies this`errors, this`canceledRecorded
      ensures View() == old(View()).RecordCanceled(path, depth)
    {
      if canceledRecorded {
        return;
      }
      canceledRecorded := true;
      Record(path, KindCanceled, depth);
    }

    method RecordRetentionLimit(path: string, depth: nat)
      modifies this`errors, this`retentionLimitRecorded
      ensures View() == old(View()).RecordRetentionLimit(path, depth)
    {
      if retentionLimitRecorded {
        return;
      }
      retentionLimitRecorded := true;
      Record(path, KindRetentionLimit, depth);
    }

    method ReserveRetainedEntry() returns (granted: bool)
      modifies this`retained
      ensures granted == (old(retained) < opts.maxRetained)
      ensures View() == old(View()).(retained := old(retained) + if granted then 1 else 0)
    {
      if retained >= opts.maxRetained {
        return false;
      }
      retained := retained + 1;
      return true;
    }

    method CountVisit(retain: bool, ghost v: Visit)
      modifies this`visited, this`omitted, this`log
      ensures View() == old(View()).CountVisit(retain, v)
    {
      visited := visited + 1;
      if !retain {
        omitted := omitted + 1;
      }
      log := log + [v];
    }

    /** The hard-link set: the first link to an inode claims it, later ones are duplicates. */
    method ClaimInode(info: Info, ghost v: Visit) returns (duplicate: bool)
      requires v.info == info && v.status == Counted
      modifies this`hardLinks
      ensures duplicate == Duplicate(old(hardLinks), v)
      ensures View() == old(View()).(hardLinks := Meet(old(hardLinks), v))
    {
      duplicate := false;
      if info.kind == File && info.links > 1 && info.device != 0 && info.inode != 0 {
        var key := InodeKey(info.device, info.inode);
        if key in hardLinks {
          duplicate := true;
          assert hardLinks + {key} == hardLinks;
        } else {
          hardLinks := hardLinks + {key};
        }
      }
    }

    /** The head of the walk: count the visit, turn away a cancelled or foreign one, look up the inode. */
    method Enter(path: string, node: Node, depth: nat, retain: bool) returns (row: Row, proceed: bool)
      modifies this
      ensures Entered(View(), row, proceed) == DiskWalk.Enter(opts, old(View()), path, node, depth, retain)
    {
      row := FreshRow(path, node.info);
      proceed := false;
      ghost var v := Arrival(opts, path, node, depth);
      CountVisit(retain, if View().Live() then v else v.(status := Interrupted));
      var canceled := ContextErr();
      if canceled {
        row := row.(note := Canceled);
        RecordCanceled(path, depth);
      } else if OutsideRootDevice(opts, node.info, depth) {
        row := row.(note := OutsideFileSystem);
        Record(path, KindOneFileSystem, depth);
      } else {
        var duplicate := ClaimInode(node.info, v);
        row := row.(duplicate := duplicate, subtree := if duplicate then ZERO else node.info.size);
        proceed := true;
      }
    }

    /** Puts a finished entry on the top list of its kind. */
    method Offer(row: Row, depth: nat)
      modifies this`topDirs, this`topFiles, this`offered
      ensures View() == old(View()).Offer(opts, row, depth)
    {
      if depth > 0 {
        if row.kind == Directory {
          topDirs := RetainTopEntry(topDirs, row, opts.limit);
          offered := offered + [row];
        } else if row.kind == File {
          topFiles := RetainTopEntry(topFiles, row, opts.limit);
          offered := offered + [row];
        }
      }
    }

    /** One entry and everything below it. */
    method Walk(path: string, node: Node, depth: nat, retain: bool) returns (e: Entry)
      modifies this
      ensures Walked(View(), e) == DiskWalk.Walk(opts, old(View()), path, node, depth, retain)
      decreases node, 1
    {
      var row, proceed := Enter(path, node, depth, retain);
      if !proceed {
        return Entry(row, []);
      }
      e := ReadBelow(path, node, depth, retain, row);
      Offer(e.row, depth);
    }

    /** The part of the walk below an entry that has been counted. */
    method ReadBelow(path: string, node: Node, depth: nat, retain: bool, entered: Row) returns (e: Entry)
      modifies this
      ensures Walked(View(), e) == DiskWalk.ReadBelow(opts, old(View()), path, node, depth, retain, entered)
      decreases node, 0
    {
      e := Entry(entered, []);
      if entered.kind == Symlink {
        Record(path, KindSymlinkSkipped, depth);
        return Entry(entered.(note := SymlinkNotFollowed), []);
      } else if entered.kind == Directory {
        if AtMaxDepth(opts, depth) {
          Record(path, KindMaxDepth, depth);
          return Entry(entered.(note := MaxDepthReached), []);
        }
        var canceled := ContextErr();
        if canceled {
          RecordCanceled(path, depth);
          return Entry(entered.(note := Canceled), []);
        }
        if node.listing.Unreadable? {
          Record(path, KindReadDir, depth);
          return Entry(entered.(note := ReadDirFailed), []);
        }
        var kids, below, omittedHere, canceledHere := ReadChildren(path, node.listing.children, depth + 1, retain);
        e := Entry(entered.(
          below := below, childrenOmitted := omittedHere, subtree := Add(entered.subtree, below),
          note := if canceledHere then Canceled else entered.note), kids);
      }
    }

    /** The entries of one directory, in listing order. */
    method ReadChildren(path: string, children: seq<Child>, depth: nat, retain: bool)
      returns (kids: seq<Entry>, below: Bytes, omittedHere: nat, canceledHere: bool)
      requires depth > 0
      modifies this
      ensures var t := WalkList(opts, old(View()), path, children, depth, retain);
        t == Tally(View(), kids, below, omittedHere, canceledHere, t.stopped)
      decreases children, 0
    {
      kids, below, omittedHere, canceledHere := [], ZERO, 0, false;
      ghost var st := View();
      var i, stopped := 0, false;
      while i < |children| && !stopped
        invariant 0 <= i <= |children|
        invariant Tally(View(), kids, below, omittedHere, canceledHere, stopped)
          == WalkList(opts, st, path, children[..i], depth, retain)
        decreases |children| - i, !stopped
      {
        ghost var t := Tally(View(), kids, below, omittedHere, canceledHere, stopped);
        ListTurn(opts, st, path, children, i, depth, retain);
        var kid, bytes, omittedChild, canceledChild;
        kid, bytes, omittedChild, canceledChild, stopped := ReadChild(path, children[i], depth, retain);
        ghost var turn := Turn(View(), kid, bytes, omittedChild, canceledChild, stopped);
        kids := kids + (if kid.Some? then [kid.value] else []);
        below := Add(below, bytes);
        omittedHere := omittedHere + if omittedChild then 1 else 0;
        canceledHere := canceledHere || canceledChild;
        i := i + 1;
        assert Tally(View(), kids, below, omittedHere, canceledHere, stopped) == TakeTurn(t, turn);
      }
      WholeList(opts, st, path, children, i, depth, retain);
    }

    /** A place in the retained tree, where the parent has one; the first refusal is recorded. */
    method GrantPlace(childPath: string, depth: nat, retain: bool) returns (granted: bool)
      modifies this
      ensures granted == (retain && old(retained) < opts.maxRetained)
      ensures View() == Grant(opts, old(View()), childPath, depth, retain)
    {
      granted := false;
      if retain {
        granted := ReserveRetainedEntry();
        if !granted {
          RecordRetentionLimit(childPath, depth);
        }
      }
    }

    /** One turn of the loop over a directory's entries. */
    method ReadChild(path: string, child: Child, depth: nat, retain: bool)
      returns (kid: Option<Entry>, bytes: Bytes, omittedChild: bool, canceledChild: bool, stop: bool)
      requires depth > 0
      modifies this
      ensures Turn(View(), kid, bytes, omittedChild, canceledChild, stop)
        == WalkChild(opts, old(View()), path, child, depth, retain)
      decreases child, 2
    {
      kid, bytes, omittedChild, stop := None, ZERO, false, false;
      canceledChild := ContextErr();
      if canceledChild {
        RecordCanceled(path, depth - 1);
        stop := true;
        return;
      }
      var childPath := JoinPath(path, child.name);
      if child.excluded {
        Record(childPath, KindExcluded, depth);
        return;
      }
      canceledChild := ContextErr();
      if canceledChild {
        RecordCanceled(childPath, depth);
        stop := true;
        return;
      }
      if child.stat.LstatFailed? {
        Record(childPath, KindLstat, depth);
        return;
      }
      var retainChild := GrantPlace(childPath, depth, retain);
      omittedChild := retain && !retainChild;
      var e := Walk(childPath, child.stat.node, depth, retainChild);
      if retainChild {
        kid := Some(e);
      }
      bytes := e.row.subtree;
      stop := ContextErr();
    }
  }

  /** A scan of `root` with normalised options. The result, in case of success, is that of the walk. */
  method Scan(o: Options, path: string, root: Stat, checks: Option<nat>) returns (r: Result<ScanResult, ScanError>)
    requires o.maxRetained >= 1
    ensures checks == Some(0) ==> r == Err(ScanError(path, KindCanceled, 0))
    ensures checks != Some(0) && root.LstatFailed? ==> r == Err(ScanError(path, KindLstat, 0))
    ensures r.Ok? <==> checks != Some(0) && root.Present?
    ensures r.Ok? ==>
      var w := DiskWalk.Walk(o, Begin(checks), path, root.node, 0, true);
      r.value == ScanResult(w.entry.row.subtree, w.st.visited, w.st.retained, w.st.omitted, w.entry,
        LimitEntries(w.st.topDirs, o.limit), LimitEntries(w.st.topFiles, o.limit), w.st.errors, !w.st.Live())
  {
    var s := new Scanner(o, checks);
    var canceled := s.ContextErr();
    if canceled {
      return Err(ScanError(path, KindCanceled, 0));
    }
    if root.LstatFailed? {
      return Err(ScanError(path, KindLstat, 0));
    }
    var reserved := s.ReserveRetainedEntry();
    assert s.View() == Begin(checks);
    var entry := s.Walk(path, root.node, 0, true);
    r := Ok(ScanResult(entry.row.subtree, s.visited, s.retained, s.omitted, entry,
      LimitEntries(s.topDirs, o.limit), LimitEntries(s.topFiles, o.limit), s.errors, s.checksLeft == Some(0)));
  }
}
