/**
  Lexical paths as Go's path/filepath handles them on a Unix system, and the containment test of
  internal/cleanup/plan.go.
 */
module CleanPaths {
  import opened TextOps

  /** The text between slashes. */
  function SplitSlash(s: string): (parts: seq<string>)
    ensures parts != [] && forall p | p in parts :: '/' !in p
    decreases |s|
  {
    var i := IndexOf(s, '/');
    if i == |s| then [s] else [s[..i]] + SplitSlash(s[i + 1..])
  }

  function JoinSlash(parts: seq<string>): string {
    if parts == [] then ""
    else if |parts| == 1 then parts[0]
    else parts[0] + "/" + JoinSlash(parts[1..])
  }

  /** The elements that remain of parts behind the elements kept so far. */
  function Keep(kept: seq<string>, parts: seq<string>, rooted: bool): seq<string>
    decreases |parts|
  {
    if parts == [] then kept
    else
      var p := parts[0];
      var next :=
        if p == "" || p == "." then kept
        else if p != ".." then kept + [p]
        else if kept != [] && kept[|kept| - 1] != ".." then kept[..|kept| - 1]
        else if rooted then kept
        else kept + [p];
      Keep(next, parts[1..], rooted)
  }

  predicate Rooted(s: string) {
    s != "" && s[0] == '/'
  }

  function Elements(s: string): seq<string> {
    Keep([], SplitSlash(s), Rooted(s))
  }

  function Render(rooted: bool, elements: seq<string>): string {
    if rooted then "/" + JoinSlash(elements)
    else if elements == [] then "."
    else JoinSlash(elements)
  }

  /** filepath.Clean. */
  function Clean(s: string): string {
    Render(Rooted(s), Elements(s))
  }

  // ---- Clean is idempotent ----

  predicate Element(p: string) {
    p != "" && p != "." && '/' !in p
  }

  /** What cleaning leaves: proper elements, and ".." only at the front of a relative path. */
  predicate Normal(elements: seq<string>, rooted: bool) {
    && (forall p | p in elements :: Element(p))
    && forall i | 0 <= i < |elements| && elements[i] == ".." :: !rooted && (i == 0 || elements[i - 1] == "..")
  }

  lemma {:induction false} KeepNormal(kept: seq<string>, parts: seq<string>, rooted: bool)
    requires Normal(kept, rooted) && forall p | p in parts :: '/' !in p
    ensures Normal(Keep(kept, parts, rooted), rooted)
    decreases |parts|
  {
    if parts != [] {
      var p, n := parts[0], |kept|;
      assert p in parts;
      if p == "" || p == "." {
        KeepNormal(kept, parts[1..], rooted);
      } else if p != ".." {
        KeepNormal(kept + [p], parts[1..], rooted);
      } else if kept != [] && kept[n - 1] != ".." {
        KeepNormal(kept[..n - 1], parts[1..], rooted);
      } else if rooted {
        KeepNormal(kept, parts[1..], rooted);
      } else {
        KeepNormal(kept + [p], parts[1..], rooted);
      }
    }
  }

  lemma {:induction false} KeepAll(kept: seq<string>, parts: seq<string>, rooted: bool)
    requires Normal(kept + parts, rooted)
    ensures Keep(kept, parts, rooted) == kept + parts
    decreases |parts|
  {
    if parts == [] {
      assert kept + parts == kept;
    } else {
      var p, n := parts[0], |kept|;
      assert (kept + parts)[n] == p && p in kept + parts;
      assert n > 0 ==> (kept + parts)[n - 1] == kept[n - 1];
      assert kept + [p] + parts[1..] == kept + parts;
      KeepAll(kept + [p], parts[1..], rooted);
    }
  }

  lemma {:induction false} SplitJoin(parts: seq<string>)
    requires parts != [] && forall p | p in parts :: '/' !in p
    ensures SplitSlash(JoinSlash(parts)) == parts
  {
    assert parts[0] in parts;
    var s := JoinSlash(parts);
    if |parts| == 1 {
      assert parts == [parts[0]];
    } else {
      var rest := JoinSlash(parts[1..]);
      assert s == parts[0] + ['/'] + rest;
      IndexOfDelimiter(parts[0], rest, '/');
      assert s[..|parts[0]|] == parts[0] && s[|parts[0]| + 1..] == rest;
      SplitJoin(parts[1..]);
      assert parts == [parts[0]] + parts[1..];
    }
  }

  lemma FirstOfJoin(elements: seq<string>)
    requires elements != [] && Element(elements[0])
    ensures JoinSlash(elements) != "" && JoinSlash(elements)[0] == elements[0][0] && elements[0][0] != '/'
  {
  }

  lemma ElementsOfRooted(elements: seq<string>)
    requires Normal(elements, true)
    ensures Rooted(Render(true, elements)) && Elements(Render(true, elements)) == elements
  {
    var joined := JoinSlash(elements);
    var s := "/" + joined;
    assert s == "" + ['/'] + joined;
    IndexOfDelimiter("", joined, '/');
    assert s[..0] == "" && s[1..] == joined;
    assert SplitSlash(s) == [""] + SplitSlash(joined);
    var parts := SplitSlash(joined);
    assert ([""] + parts)[1..] == parts;
    if elements == [] {
      assert parts == [""];
      assert Keep([], [""], true) == [];
    } else {
      SplitJoin(elements);
      assert [] + elements == elements;
      KeepAll([], elements, true);
    }
  }

  lemma ElementsOfRelative(elements: seq<string>)
    requires Normal(elements, false)
    ensures !Rooted(Render(false, elements)) && Elements(Render(false, elements)) == elements
  {
    if elements == [] {
      assert SplitSlash(".") == ["."];
      assert Keep([], ["."], false) == Keep([], [], false);
    } else {
      assert elements[0] in elements;
      FirstOfJoin(elements);
      SplitJoin(elements);
      assert [] + elements == elements;
      KeepAll([], elements, false);
    }
  }

  lemma ElementsNormal(s: string)
    ensures Normal(Elements(s), Rooted(s))
  {
    KeepNormal([], SplitSlash(s), Rooted(s));
  }

  lemma CleanIdempotent(s: string)
    ensures Clean(Clean(s)) == Clean(s) && Elements(Clean(s)) == Elements(s) && Rooted(Clean(s)) == Rooted(s)
  {
    ElementsNormal(s);
    if Rooted(s) {
      ElementsOfRooted(Elements(s));
    } else {
      ElementsOfRelative(Elements(s));
    }
  }

  // ---- Containment ----

  predicate PathContainedInRoot(path: string, root: string) {
    Clean(path) == Clean(root) || Clean(root) + "/" <= Clean(path)
  }

  lemma {:induction false} PrefixOfJoin(b: seq<string>, a: seq<string>)
    requires b != [] && (forall p | p in a :: Element(p)) && forall p | p in b :: Element(p)
    ensures JoinSlash(b) + "/" <= JoinSlash(a) <==> b < a
    decreases |b|
  {
    var x, y := JoinSlash(b) + "/", JoinSlash(a);
    assert b[0] in b;
    if a == [] {
    } else if |a| == 1 {
      assert a[0] in a;
      assert '/' in x && '/' !in y;
    } else {
      assert a[0] in a;
      var behind := JoinSlash(a[1..]);
      assert y == a[0] + ['/'] + behind;
      if |b| == 1 {
        assert x == b[0] + ['/'];
        if x <= y {
          assert y == b[0] + ['/'] + y[|x|..];
          FirstDelimiter(b[0], y[|x|..], a[0], behind, '/');
        }
      } else {
        var inner := JoinSlash(b[1..]) + "/";
        PrefixOfJoin(b[1..], a[1..]);
        assert x == b[0] + ['/'] + inner;
        if x <= y {
          assert y == b[0] + ['/'] + (inner + y[|x|..]);
          FirstDelimiter(b[0], inner + y[|x|..], a[0], behind, '/');
          assert behind == inner + y[|x|..];
        }
      }
    }
  }

  /** Between absolute paths the textual test is exactly "the root's elements begin the path's", but
      that the root directory itself contains nothing except itself. */
  lemma ContainmentIsExact(path: string, root: string)
    requires Rooted(path) && Rooted(root)
    ensures PathContainedInRoot(path, root) <==>
      if Elements(root) == [] then Elements(path) == [] else Elements(root) <= Elements(path)
  {
    var a, b := Elements(path), Elements(root);
    ElementsNormal(path);
    ElementsNormal(root);
    SamePath(a, b);
    if b == [] {
      if a != [] {
        assert a[0] in a;
        FirstOfJoin(a);
        assert Clean(root) + "/" == "//" && "//"[1] == '/' && Clean(path)[1] == JoinSlash(a)[0];
      }
    } else {
      PrefixOfJoin(b, a);
      assert Clean(root) + "/" == "/" + (JoinSlash(b) + "/");
      SlashPrefix(JoinSlash(b) + "/", JoinSlash(a));
    }
  }

  lemma SlashPrefix(x: string, y: string)
    ensures "/" + x <= "/" + y <==> x <= y
  {
    if "/" + x <= "/" + y {
      assert x == ("/" + x)[1..] && y[..|x|] == ("/" + y)[1..|x| + 1];
    }
  }

  lemma SamePath(a: seq<string>, b: seq<string>)
    requires Normal(a, true) && Normal(b, true)
    ensures Render(true, a) == Render(true, b) <==> a == b
  {
    ElementsOfRooted(a);
    ElementsOfRooted(b);
  }
}
