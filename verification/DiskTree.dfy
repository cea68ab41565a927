/**
  What a disk scan is measured against: the directory tree as Lstat and ReadDir report it, the
  preorder of the entries a complete scan visits, and the bytes each visit is charged.
 */
module DiskTree {
  import opened Common
  import opened TopEntries

  datatype Info = Info(kind: Kind, size: Bytes, device: nat, inode: nat, links: nat)

  datatype Node = Node(info: Info, listing: Listing)

  datatype Listing = Unreadable | Listed(children: seq<Child>)

  /** `excluded` is the verdict of the exclude patterns on this child's path. */
  datatype Child = Child(name: string, excluded: bool, stat: Stat)

  datatype Stat = LstatFailed | Present(node: Node)

  datatype Options = Options(
    maxDepth: int, limit: int, maxRetained: nat, oneFileSystem: bool, deviceInfo: bool, rootDevice: nat)

  datatype Status = Counted | Foreign | Interrupted

  datatype Visit = Visit(path: string, depth: nat, info: Info, status: Status)

  datatype InodeKey = InodeKey(device: nat, inode: nat)

  const ZERO := Bytes(0, 0)

  function Add(a: Bytes, b: Bytes): Bytes {
    Bytes(a.logical + b.logical, a.disk + b.disk)
  }

  lemma AddZero(a: Bytes)
    ensures Add(a, ZERO) == a && Add(ZERO, a) == a
  {
  }

  function JoinPath(parent: string, name: string): string {
    if parent == "/" then "/" + name else parent + "/" + name
  }

  predicate OutsideRootDevice(o: Options, info: Info, depth: nat) {
    depth > 0 && o.oneFileSystem && o.deviceInfo && info.device != 0 && info.device != o.rootDevice
  }

  predicate AtMaxDepth(o: Options, depth: nat) {
    o.maxDepth >= 0 && depth >= o.maxDepth
  }

  predicate Descends(o: Options, node: Node, depth: nat) {
    && !OutsideRootDevice(o, node.info, depth)
    && node.info.kind == Directory
    && !AtMaxDepth(o, depth)
    && node.listing.Listed?
  }

  function Arrival(o: Options, path: string, node: Node, depth: nat): Visit {
    Visit(path, depth, node.info, if OutsideRootDevice(o, node.info, depth) then Foreign else Counted)
  }

  /** Every entry a scan that is never cancelled visits, in order. */
  function Preorder(o: Options, path: string, node: Node, depth: nat): seq<Visit>
    decreases node, 1
  {
    [Arrival(o, path, node, depth)] + Below(o, path, node, depth)
  }

  function Below(o: Options, path: string, node: Node, depth: nat): seq<Visit>
    decreases node, 0
  {
    if Descends(o, node, depth) then PreorderAll(o, path, node.listing.children, depth + 1) else []
  }

  function PreorderChild(o: Options, parent: string, child: Child, depth: nat): seq<Visit>
    decreases child, 2
  {
    if child.excluded || child.stat.LstatFailed? then []
    else Preorder(o, JoinPath(parent, child.name), child.stat.node, depth)
  }

  function PreorderAll(o: Options, parent: string, children: seq<Child>, depth: nat): seq<Visit>
    decreases children, 0
  {
    if children == [] then []
    else PreorderChild(o, parent, children[0], depth) + PreorderAll(o, parent, children[1..], depth)
  }

  // ---- Hard links ----

  predicate MultiLinked(v: Visit) {
    && v.status == Counted && v.info.kind == File
    && v.info.links > 1 && v.info.device != 0 && v.info.inode != 0
  }

  function Key(v: Visit): InodeKey {
    InodeKey(v.info.device, v.info.inode)
  }

  /** The inodes met after visiting v. */
  function Meet(seen: set<InodeKey>, v: Visit): set<InodeKey> {
    if MultiLinked(v) then seen + {Key(v)} else seen
  }

  function MeetAll(seen: set<InodeKey>, vs: seq<Visit>): set<InodeKey>
    decreases |vs|
  {
    if vs == [] then seen else MeetAll(Meet(seen, vs[0]), vs[1..])
  }

  predicate Duplicate(seen: set<InodeKey>, v: Visit) {
    MultiLinked(v) && Key(v) in seen
  }

  function Charge(seen: set<InodeKey>, v: Visit): Bytes {
    if v.status != Counted || Duplicate(seen, v) then ZERO else v.info.size
  }

  /** The bytes the visits `vs` are charged when the inodes `seen` were met before them. */
  function Charges(seen: set<InodeKey>, vs: seq<Visit>): Bytes
    decreases |vs|
  {
    if vs == [] then ZERO
    else Add(Charge(seen, vs[0]), Charges(Meet(seen, vs[0]), vs[1..]))
  }

  lemma {:induction false} MeetAllAppend(seen: set<InodeKey>, a: seq<Visit>, b: seq<Visit>)
    ensures MeetAll(seen, a + b) == MeetAll(MeetAll(seen, a), b)
    decreases |a|
  {
    if a == [] {
      assert a + b == b;
    } else {
      assert (a + b)[0] == a[0] && (a + b)[1..] == a[1..] + b;
      MeetAllAppend(Meet(seen, a[0]), a[1..], b);
    }
  }

  lemma {:induction false} ChargesAppend(seen: set<InodeKey>, a: seq<Visit>, b: seq<Visit>)
    ensures Charges(seen, a + b) == Add(Charges(seen, a), Charges(MeetAll(seen, a), b))
    decreases |a|
  {
    if a == [] {
      assert a + b == b;
    } else {
      assert (a + b)[0] == a[0] && (a + b)[1..] == a[1..] + b;
      ChargesAppend(Meet(seen, a[0]), a[1..], b);
    }
  }

  ghost predicate LinkAt(vs: seq<Visit>, key: InodeKey, i: int) {
    0 <= i < |vs| && MultiLinked(vs[i]) && Key(vs[i]) == key
  }

  ghost predicate FirstLink(vs: seq<Visit>, key: InodeKey, i: int) {
    LinkAt(vs, key, i) && key !in MeetAll({}, vs[..i])
  }

  lemma {:induction false} MetMeansVisited(seen: set<InodeKey>, vs: seq<Visit>, key: InodeKey)
    ensures key in MeetAll(seen, vs) <==> key in seen || exists i :: LinkAt(vs, key, i)
    decreases |vs|
  {
    if vs != [] {
      var rest := vs[1..];
      MetMeansVisited(Meet(seen, vs[0]), rest, key);
      if i :| LinkAt(rest, key, i) {
        assert LinkAt(vs, key, i + 1);
      }
      if i :| LinkAt(vs, key, i) && i > 0 {
        assert LinkAt(rest, key, i - 1);
      }
      if MultiLinked(vs[0]) && Key(vs[0]) == key {
        assert LinkAt(vs, key, 0);
      }
    }
  }

  lemma {:induction false} FirstLinkExists(vs: seq<Visit>, key: InodeKey, i: nat) returns (first: nat)
    requires LinkAt(vs, key, i)
    ensures FirstLink(vs, key, first)
  {
    if key in MeetAll({}, vs[..i]) {
      MetMeansVisited({}, vs[..i], key);
      var j :| LinkAt(vs[..i], key, j);
      first := FirstLinkExists(vs, key, j);
    } else {
      first := i;
    }
  }

  lemma FirstLinkUnique(vs: seq<Visit>, key: InodeKey, i: nat, j: nat)
    requires FirstLink(vs, key, i) && LinkAt(vs, key, j)
    ensures i <= j
  {
    if j < i {
      assert LinkAt(vs[..i], key, j);
      MetMeansVisited({}, vs[..i], key);
      assert false;
    }
  }

  /** Each multiply linked inode is charged in full at exactly one of its links, the first one
      visited, and nothing at every other. */
  lemma EachInodeChargedOnce(vs: seq<Visit>, key: InodeKey, i: nat) returns (first: nat)
    requires LinkAt(vs, key, i)
    ensures LinkAt(vs, key, first) && Charge(MeetAll({}, vs[..first]), vs[first]) == vs[first].info.size
    ensures forall j | LinkAt(vs, key, j) :: first <= j
    ensures forall j | LinkAt(vs, key, j) && j != first :: Charge(MeetAll({}, vs[..j]), vs[j]) == ZERO
  {
    first := FirstLinkExists(vs, key, i);
    forall j | LinkAt(vs, key, j) ensures first <= j { FirstLinkUnique(vs, key, first, j); }
    forall j | LinkAt(vs, key, j) && j != first ensures Charge(MeetAll({}, vs[..j]), vs[j]) == ZERO {
      FirstLinkUnique(vs, key, first, j);
      assert LinkAt(vs[..j], key, first);
      MetMeansVisited({}, vs[..j], key);
    }
  }

  // ---- Listing order does not matter ----

  /** All counted links to one inode report one size. */
  ghost predicate LinksAgree(vs: seq<Visit>) {
    forall x, y | x in vs && y in vs && MultiLinked(x) && MultiLinked(y) ::
      Key(x) == Key(y) ==> x.info.size == y.info.size
  }

  lemma SwapFront(seen: set<InodeKey>, x: Visit, y: Visit, rest: seq<Visit>)
    requires MultiLinked(x) && MultiLinked(y) && Key(x) == Key(y) ==> x.info.size == y.info.size
    ensures Charges(seen, [x, y] + rest) == Charges(seen, [y, x] + rest)
  {
    FrontTwo(seen, x, y, rest);
    FrontTwo(seen, y, x, rest);
    TwoCharges(seen, x, y);
    MeetTwo(seen, x, y);
  }

  lemma MeetTwo(seen: set<InodeKey>, x: Visit, y: Visit)
    ensures Meet(Meet(seen, x), y) == Meet(Meet(seen, y), x)
  {
  }

  lemma TwoCharges(seen: set<InodeKey>, x: Visit, y: Visit)
    requires MultiLinked(x) && MultiLinked(y) && Key(x) == Key(y) ==> x.info.size == y.info.size
    ensures Add(Charge(seen, x), Charge(Meet(seen, x), y)) == Add(Charge(seen, y), Charge(Meet(seen, y), x))
  {
  }

  lemma FrontTwo(seen: set<InodeKey>, x: Visit, y: Visit, rest: seq<Visit>)
    ensures Charges(seen, [x, y] + rest) ==
      Add(Charge(seen, x), Add(Charge(Meet(seen, x), y), Charges(Meet(Meet(seen, x), y), rest)))
  {
    assert ([x, y] + rest)[1..] == [y] + rest && ([y] + rest)[1..] == rest;
  }

  lemma {:induction false} MoveToFront(seen: set<InodeKey>, p: seq<Visit>, x: Visit, q: seq<Visit>)
    requires LinksAgree([x] + p)
    ensures Charges(seen, p + [x] + q) == Charges(seen, [x] + p + q)
    decreases |p|
  {
    if p == [] {
      assert p + [x] + q == [x] + p + q;
    } else {
      var y, rest := p[0], p[1..];
      MoveToFront(Meet(seen, y), rest, x, q);
      ChargesCons(seen, y, rest + [x] + q);
      ChargesCons(seen, y, [x] + rest + q);
      SwapFront(seen, y, x, rest + q);
      Regroup(y, rest, x, q);
      assert p == [y] + rest;
    }
  }

  lemma ChargesCons(seen: set<InodeKey>, y: Visit, vs: seq<Visit>)
    ensures Charges(seen, [y] + vs) == Add(Charge(seen, y), Charges(Meet(seen, y), vs))
  {
    assert ([y] + vs)[1..] == vs;
  }

  lemma Regroup(y: Visit, rest: seq<Visit>, x: Visit, q: seq<Visit>)
    ensures ([y] + rest) + [x] + q == [y] + (rest + [x] + q)
    ensures [y] + ([x] + rest + q) == [y, x] + (rest + q)
    ensures [x, y] + (rest + q) == [x] + ([y] + rest) + q
  {
  }

  /** Totals depend on which entries are visited, not on the order they come in. */
  lemma {:induction false} TotalIgnoresOrder(seen: set<InodeKey>, a: seq<Visit>, b: seq<Visit>)
    requires multiset(a) == multiset(b) && LinksAgree(a)
    ensures Charges(seen, a) == Charges(seen, b)
    decreases |a|
  {
    assert |a| == |multiset(a)| == |multiset(b)| == |b|;
    if a != [] {
      var x, rest := a[0], a[1..];
      assert a == [x] + rest;
      assert x in multiset(b);
      var p, q := SplitAt(b, x);
      WithoutFirst(rest, x, p, q);
      assert LinksAgree([x] + p) by {
        forall y | y in [x] + p ensures y in a { assert y in multiset(b); }
      }
      MoveToFront(seen, p, x, q);
      assert [x] + p + q == [x] + (p + q) && ([x] + (p + q))[1..] == p + q;
      TotalIgnoresOrder(Meet(seen, x), rest, p + q);
    }
  }

  lemma WithoutFirst(rest: seq<Visit>, x: Visit, p: seq<Visit>, q: seq<Visit>)
    requires multiset([x] + rest) == multiset(p + [x] + q)
    ensures multiset(rest) == multiset(p + q)
  {
    assert multiset(rest) == multiset([x] + rest) - multiset{x};
    assert multiset(p + q) == multiset(p + [x] + q) - multiset{x};
  }

  lemma SplitAt(b: seq<Visit>, x: Visit) returns (p: seq<Visit>, q: seq<Visit>)
    requires x in multiset(b)
    ensures b == p + [x] + q
  {
    var j :| 0 <= j < |b| && b[j] == x;
    p, q := b[..j], b[j + 1..];
  }

  /** One exchange of two neighbouring entries in some directory's listing. */
  datatype Exchange = Here(at: nat) | Inside(child: nat, deeper: Exchange)

  function Reorder(node: Node, x: Exchange): Node
    decreases x
  {
    if node.listing.Unreadable? then node
    else
      var c := node.listing.children;
      match x
      case Here(i) =>
        if i + 1 < |c| then node.(listing := Listed(c[i := c[i + 1]][i + 1 := c[i]])) else node
      case Inside(i, deeper) =>
        if i < |c| && c[i].stat.Present? then
          node.(listing := Listed(c[i := c[i].(stat := Present(Reorder(c[i].stat.node, deeper)))]))
        else node
  }

  function ReorderAll(node: Node, xs: seq<Exchange>): Node
    decreases |xs|
  {
    if xs == [] then node else ReorderAll(Reorder(node, xs[0]), xs[1..])
  }

  lemma {:induction false} PreorderAppend(o: Options, parent: string, a: seq<Child>, b: seq<Child>, depth: nat)
    ensures PreorderAll(o, parent, a + b, depth) == PreorderAll(o, parent, a, depth) + PreorderAll(o, parent, b, depth)
  {
    if a == [] {
      assert a + b == b;
    } else {
      var head, rest := PreorderChild(o, parent, a[0], depth), PreorderAll(o, parent, a[1..], depth);
      assert (a + b)[0] == a[0] && (a + b)[1..] == a[1..] + b;
      PreorderAppend(o, parent, a[1..], b, depth);
      assert head + (rest + PreorderAll(o, parent, b, depth)) == head + rest + PreorderAll(o, parent, b, depth);
    }
  }

  lemma PreorderSplit(o: Options, parent: string, c: seq<Child>, i: nat, depth: nat)
    requires i < |c|
    ensures PreorderAll(o, parent, c, depth) ==
      PreorderAll(o, parent, c[..i], depth) + PreorderChild(o, parent, c[i], depth)
        + PreorderAll(o, parent, c[i + 1..], depth)
  {
    assert c == c[..i] + c[i..];
    PreorderAppend(o, parent, c[..i], c[i..], depth);
    assert c[i..][1..] == c[i + 1..];
  }

  lemma ExchangeSameVisits(o: Options, parent: string, c: seq<Child>, i: nat, depth: nat)
    requires i + 1 < |c|
    ensures multiset(PreorderAll(o, parent, c[i := c[i + 1]][i + 1 := c[i]], depth))
      == multiset(PreorderAll(o, parent, c, depth))
  {
    var a, x, y, b := c[..i], c[i], c[i + 1], c[i + 2..];
    var c' := c[i := y][i + 1 := x];
    assert c == a + [x, y] + b && c' == a + [y, x] + b;
    PreorderPair(o, parent, a, x, y, b, depth);
    PreorderPair(o, parent, a, y, x, b, depth);
    SwapBlocks(PreorderAll(o, parent, a, depth), PreorderChild(o, parent, x, depth),
      PreorderChild(o, parent, y, depth), PreorderAll(o, parent, b, depth));
  }

  lemma SwapBlocks(a: seq<Visit>, x: seq<Visit>, y: seq<Visit>, b: seq<Visit>)
    ensures multiset(a + (x + (y + b))) == multiset(a + (y + (x + b)))
  {
  }

  lemma SameAfter(p: seq<Visit>, a: seq<Visit>, b: seq<Visit>)
    requires multiset(a) == multiset(b)
    ensures multiset(p + a) == multiset(p + b)
  {
  }

  lemma SameMultiset(p: seq<Visit>, a: seq<Visit>, b: seq<Visit>, q: seq<Visit>)
    requires multiset(a) == multiset(b)
    ensures multiset(p + a + q) == multiset(p + b + q)
  {
  }

  lemma PreorderPair(o: Options, parent: string, a: seq<Child>, x: Child, y: Child, b: seq<Child>, depth: nat)
    ensures PreorderAll(o, parent, a + [x, y] + b, depth) ==
      PreorderAll(o, parent, a, depth) +
      (PreorderChild(o, parent, x, depth) + (PreorderChild(o, parent, y, depth) + PreorderAll(o, parent, b, depth)))
  {
    assert a + [x, y] + b == a + ([x] + ([y] + b));
    PreorderAppend(o, parent, a, [x] + ([y] + b), depth);
    assert ([x] + ([y] + b))[1..] == [y] + b && ([y] + b)[1..] == b;
  }

  lemma {:induction false} ReorderSameVisits(o: Options, path: string, node: Node, depth: nat, x: Exchange)
    ensures multiset(Preorder(o, path, Reorder(node, x), depth)) == multiset(Preorder(o, path, node, depth))
    decreases x, 1
  {
    if Descends(o, node, depth) {
      ReorderSameBelow(o, path, node, depth, x);
      ListingToPreorder(o, path, node, Reorder(node, x), depth);
    }
  }

  lemma {:induction false} ReorderSameBelow(o: Options, path: string, node: Node, depth: nat, x: Exchange)
    requires node.listing.Listed?
    ensures Reorder(node, x).listing.Listed?
    ensures multiset(PreorderAll(o, path, Reorder(node, x).listing.children, depth + 1))
         == multiset(PreorderAll(o, path, node.listing.children, depth + 1))
    decreases x, 0
  {
    var c := node.listing.children;
    if x.Here? && x.at + 1 < |c| {
      ExchangeSameVisits(o, path, c, x.at, depth + 1);
    } else if x.Inside? && x.child < |c| && c[x.child].stat.Present? {
      ReorderSameInside(o, path, c, x.child, depth + 1, x.deeper);
    }
  }

  lemma {:induction false} ReorderSameInside(o: Options, path: string, c: seq<Child>, i: nat, depth: nat,
                                             deeper: Exchange)
    requires i < |c| && c[i].stat.Present?
    ensures multiset(PreorderAll(o, path, c[i := c[i].(stat := Present(Reorder(c[i].stat.node, deeper)))], depth))
         == multiset(PreorderAll(o, path, c, depth))
    decreases deeper, 2
  {
    var child := c[i].(stat := Present(Reorder(c[i].stat.node, deeper)));
    ReorderSameVisits(o, JoinPath(path, c[i].name), c[i].stat.node, depth, deeper);
    ChangeOneChild(o, path, c, i, child, depth);
  }

  lemma ListingToPreorder(o: Options, path: string, a: Node, b: Node, depth: nat)
    requires a.info == b.info && a.listing.Listed? && b.listing.Listed?
    requires multiset(PreorderAll(o, path, b.listing.children, depth + 1))
          == multiset(PreorderAll(o, path, a.listing.children, depth + 1))
    ensures multiset(Preorder(o, path, b, depth)) == multiset(Preorder(o, path, a, depth))
  {
    SameAfter([Arrival(o, path, a, depth)],
      PreorderAll(o, path, b.listing.children, depth + 1), PreorderAll(o, path, a.listing.children, depth + 1));
  }

  lemma ChangeOneChild(o: Options, parent: string, c: seq<Child>, i: nat, x: Child, depth: nat)
    requires i < |c|
    requires multiset(PreorderChild(o, parent, x, depth)) == multiset(PreorderChild(o, parent, c[i], depth))
    ensures multiset(PreorderAll(o, parent, c[i := x], depth)) == multiset(PreorderAll(o, parent, c, depth))
  {
    var c' := c[i := x];
    PreorderSplit(o, parent, c, i, depth);
    PreorderSplit(o, parent, c', i, depth);
    assert c[..i] == c'[..i] && c[i + 1..] == c'[i + 1..];
    SameMultiset(PreorderAll(o, parent, c[..i], depth), PreorderChild(o, parent, x, depth),
      PreorderChild(o, parent, c[i], depth), PreorderAll(o, parent, c[i + 1..], depth));
  }

  lemma {:induction false} ReorderAllSameVisits(o: Options, path: string, node: Node, depth: nat, xs: seq<Exchange>)
    ensures multiset(Preorder(o, path, ReorderAll(node, xs), depth)) == multiset(Preorder(o, path, node, depth))
    decreases |xs|
  {
    if xs != [] {
      ReorderSameVisits(o, path, node, depth, xs[0]);
      ReorderAllSameVisits(o, path, Reorder(node, xs[0]), depth, xs[1..]);
    }
  }

  /** Whatever order the directories list their entries in, a complete scan totals the same. */
  lemma ListingOrderIrrelevant(o: Options, path: string, root: Node, xs: seq<Exchange>)
    requires LinksAgree(Preorder(o, path, root, 0))
    ensures Charges({}, Preorder(o, path, ReorderAll(root, xs), 0)) == Charges({}, Preorder(o, path, root, 0))
  {
    ReorderAllSameVisits(o, path, root, 0, xs);
    TotalIgnoresOrder({}, Preorder(o, path, root, 0), Preorder(o, path, ReorderAll(root, xs), 0));
  }

  /** The agreement is needed: two links that report different sizes, listed in either order. */
  lemma ListingOrderMattersWhenLinksDisagree(o: Options)
    requires o.maxDepth < 0 && !o.oneFileSystem
    ensures exists root, x ::
      Charges({}, Preorder(o, "/r", Reorder(root, x), 0)) != Charges({}, Preorder(o, "/r", root, 0))
  {
    var small := Node(Info(File, Bytes(1, 1), 1, 7, 2), Unreadable);
    var large := Node(Info(File, Bytes(2, 2), 1, 7, 2), Unreadable);
    var a, b := Child("a", false, Present(small)), Child("b", false, Present(large));
    var dir := Info(Directory, ZERO, 1, 1, 1);
    var root := Node(dir, Listed([a, b]));
    TwoLinks(o, root, a, b);
    assert Reorder(root, Here(0)).listing.children == [b, a];
    TwoLinks(o, Reorder(root, Here(0)), b, a);
  }

  lemma TwoLinks(o: Options, root: Node, a: Child, b: Child)
    requires o.maxDepth < 0 && !o.oneFileSystem
    requires root == Node(Info(Directory, ZERO, 1, 1, 1), Listed([a, b]))
    requires !a.excluded && !b.excluded && a.stat.Present? && b.stat.Present?
    requires a.stat.node.info.kind == File && b.stat.node.info.kind == File
    requires a.stat.node.info.device == b.stat.node.info.device == 1
    requires a.stat.node.info.inode == b.stat.node.info.inode == 7
    requires a.stat.node.info.links == b.stat.node.info.links == 2
    ensures Charges({}, Preorder(o, "/r", root, 0)) == a.stat.node.info.size
  {
    var v := Arrival(o, "/r", root, 0);
    var va := Arrival(o, JoinPath("/r", a.name), a.stat.node, 1);
    var vb := Arrival(o, JoinPath("/r", b.name), b.stat.node, 1);
    assert [a, b][1..] == [b] && [b][1..] == [];
    assert Below(o, va.path, a.stat.node, 1) == [] && Below(o, vb.path, b.stat.node, 1) == [];
    assert PreorderChild(o, "/r", a, 1) == [va] && PreorderChild(o, "/r", b, 1) == [vb];
    assert PreorderAll(o, "/r", [b], 1) == [vb] + PreorderAll(o, "/r", [], 1);
    assert PreorderAll(o, "/r", [a, b], 1) == [va] + PreorderAll(o, "/r", [b], 1);
    assert Preorder(o, "/r", root, 0) == [v] + [va, vb];
    ChargeTwoLinks(v, va, vb);
  }

  lemma ChargeTwoLinks(v: Visit, a: Visit, b: Visit)
    requires v.info.kind == Directory && v.info.size == ZERO
    requires MultiLinked(a) && MultiLinked(b) && Key(a) == Key(b)
    ensures Charges({}, [v] + [a, b]) == a.info.size
  {
    var seen: set<InodeKey> := {};
    assert ([v] + [a, b])[1..] == [a, b] + [];
    assert Meet(seen, v) == seen && Charge(seen, v) == ZERO;
    FrontTwo(seen, a, b, []);
    var later := Meet(Meet(seen, a), b);
    assert Charges(later, []) == ZERO;
    assert Charge(seen, a) == a.info.size && Charge(Meet(seen, a), b) == ZERO;
    AddZero(a.info.size);
    AddZero(Charge(Meet(seen, a), b));
  }
}
