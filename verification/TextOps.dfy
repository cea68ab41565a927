/** The few string operations of Go's strings package that the modelled code uses. */
module TextOps {

  /** The white space that Go's TrimSpace removes. */
  predicate IsSpace(c: char) {
    '\U{0009}' <= c <= '\U{000D}' || c == ' ' || c == '\U{0085}' || c == '\U{00A0}' || c == '\U{1680}'
    || '\U{2000}' <= c <= '\U{200A}' || c == '\U{2028}' || c == '\U{2029}' || c == '\U{202F}'
    || c == '\U{205F}' || c == '\U{3000}'
  }

  function TrimLeft(s: string): string {
    if s != "" && IsSpace(s[0]) then TrimLeft(s[1..]) else s
  }

  function TrimRight(s: string): string {
    if s != "" && IsSpace(s[|s| - 1]) then TrimRight(s[..|s| - 1]) else s
  }

  function TrimSpace(s: string): string {
    TrimRight(TrimLeft(s))
  }

  lemma {:induction false} TrimLeftIsSuffix(s: string)
    ensures var t := TrimLeft(s); |t| <= |s| && t == s[|s| - |t|..] && (t == "" || !IsSpace(t[0]))
  {
    if s != "" && IsSpace(s[0]) {
      TrimLeftIsSuffix(s[1..]);
    }
  }

  lemma {:induction false} TrimRightIsPrefix(s: string)
    ensures var t := TrimRight(s); |t| <= |s| && t == s[..|t|] && (t == "" || !IsSpace(t[|t| - 1]))
  {
    if s != "" && IsSpace(s[|s| - 1]) {
      TrimRightIsPrefix(s[..|s| - 1]);
    }
  }

  /** Trimmed text is left alone by a second trim. */
  lemma TrimSpaceIdempotent(s: string)
    ensures TrimSpace(TrimSpace(s)) == TrimSpace(s)
  {
    var l := TrimLeft(s);
    TrimLeftIsSuffix(s);
    TrimRightIsPrefix(l);
    var t := TrimRight(l);
    if t != "" {
      assert t[0] == l[0];
    }
  }

  /** The first occurrence of c, or |s|. */
  function IndexOf(s: string, c: char): (i: nat)
    ensures i <= |s| && c !in s[..i]
    ensures i < |s| ==> s[i] == c
    ensures i == |s| <==> c !in s
  {
    if s == "" then 0
    else if s[0] == c then 0
    else
      var i := 1 + IndexOf(s[1..], c);
      assert s[..i] == [s[0]] + s[1..][..i - 1];
      i
  }

  lemma {:induction false} IndexOfDelimiter(a: string, x: string, c: char)
    requires c !in a
    ensures IndexOf(a + [c] + x, c) == |a|
  {
    var s := a + [c] + x;
    if a != "" {
      assert s[0] == a[0] && s[1..] == a[1..] + [c] + x;
      IndexOfDelimiter(a[1..], x, c);
    }
  }

  /** A text is cut in only one way at its first delimiter. */
  lemma FirstDelimiter(a: string, x: string, b: string, y: string, c: char)
    requires c !in a && c !in b && a + [c] + x == b + [c] + y
    ensures a == b && x == y
  {
    IndexOfDelimiter(a, x, c);
    IndexOfDelimiter(b, y, c);
    var s, t := a + [c] + x, b + [c] + y;
    assert a == s[..|a|] && b == t[..|b|];
    assert x == s[|a| + 1..] && y == t[|b| + 1..];
  }
}
