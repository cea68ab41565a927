/**
  The decoders of internal/browserfacade/outbound.go: backslash escapes, Go's QueryUnescape, and the
  decoded forms that deriveNormalizedVariants offers. A text is the string of its bytes, each byte the
  character of that number.
 */
module OutboundDecode {
  import opened Common
  import opened OutboundVariants

  type Text = string

  const BACKSLASH := '\\'
  const PERCENT := '%'
  const PLUS := '+'
  const SPACE := ' '

  // ---- Hexadecimal and UTF-8 ----

  function HexValue(c: char): (v: Option<nat>)
    ensures v.Some? ==> v.value < 16
  {
    if '0' <= c <= '9' then Some(c as nat - '0' as nat)
    else if 'a' <= c <= 'f' then Some(c as nat - 'a' as nat + 10)
    else if 'A' <= c <= 'F' then Some(c as nat - 'A' as nat + 10)
    else None
  }

  /** The value of hexadecimal digits, four at most here. */
  function ParseHex(t: Text): (v: Option<nat>) {
    if t == [] then Some(0)
    else
      var front, last := ParseHex(t[..|t| - 1]), HexValue(t[|t| - 1]);
      if front.None? || last.None? then None else Some(front.value * 16 + last.value)
  }

  function Utf8(rune: nat): (t: Text)
    requires rune < 0x10000
    ensures 1 <= |t| <= 3
  {
    if rune < 0x80 then [rune as char]
    else if rune < 0x800 then [(0xC0 + rune / 64) as char, (0x80 + rune % 64) as char]
    else [(0xE0 + rune / 4096) as char, (0x80 + rune / 64 % 64) as char, (0x80 + rune % 64) as char]
  }

  function Pow16(n: nat): nat {
    if n == 0 then 1 else 16 * Pow16(n - 1)
  }

  lemma {:induction false} HexBound(t: Text)
    requires ParseHex(t).Some?
    ensures ParseHex(t).value < Pow16(|t|)
  {
    if t != [] {
      HexBound(t[..|t| - 1]);
    }
  }

  lemma FourDigits(t: Text)
    requires |t| == 4 && ParseHex(t).Some?
    ensures ParseHex(t).value < 0x10000
  {
    HexBound(t);
    assert Pow16(4) == 0x10000;
  }

  // ---- decodeBackslashVariant ----

  /** What stands at a backslash: the decoded bytes and how many bytes of the text they stand for, or
      None where it begins no escape. */
  datatype Escape = Escape(bytes: Text, length: nat)

  function Control(c: char): Option<char> {
    match c
    case 'b' => Some(8 as char)
    case 'f' => Some(12 as char)
    case 'n' => Some('\n')
    case 'r' => Some('\r')
    case 't' => Some('\t')
    case _ => None
  }

  function UnicodeEscape(t: Text): (e: Option<Escape>)
    requires |t| >= 2
    ensures e.Some? ==> e.value.length == 6 <= |t| && 1 <= |e.value.bytes| <= 3
  {
    if |t| < 6 then None
    else
      var v := ParseHex(t[2..6]);
      if v.None? || 0xD800 <= v.value <= 0xDFFF then None
      else
        FourDigits(t[2..6]);
        Some(Escape(Utf8(v.value), 6))
  }

  function EscapeAt(t: Text): (e: Option<Escape>)
    requires t != [] && t[0] == BACKSLASH
    ensures e.Some? ==> 1 <= |e.value.bytes| < e.value.length <= |t|
  {
    if |t| < 2 then None
    else if t[1] == BACKSLASH || t[1] == '/' || t[1] == '"' then Some(Escape([t[1]], 2))
    else if Control(t[1]).Some? then Some(Escape([Control(t[1]).value], 2))
    else if t[1] == 'u' then UnicodeEscape(t)
    else None
  }

  datatype Decoding = Decoding(text: Text, changed: bool, ambiguous: bool)

  /** Every escape decoded, from left to right; a backslash that begins none is kept and noted. */
  function DecodeFrom(t: Text, before: Decoding): Decoding
    decreases |t|
  {
    if t == [] then before
    else if t[0] != BACKSLASH then DecodeFrom(t[1..], before.(text := before.text + [t[0]]))
    else
      var e := EscapeAt(t);
      if e.None? then DecodeFrom(t[1..], before.(text := before.text + [t[0]], ambiguous := true))
      else DecodeFrom(t[e.value.length..], before.(text := before.text + e.value.bytes, changed := true))
  }

  function DecodeBackslashes(raw: Text): Decoding {
    DecodeFrom(raw, Decoding([], false, false))
  }

  method DecodeBackslashVariant(raw: Text) returns (d: Decoding)
    ensures d == DecodeBackslashes(raw)
  {
    d := Decoding([], false, false);
    var index := 0;
    assert raw[0..] == raw;
    while index < |raw|
      invariant 0 <= index <= |raw|
      invariant DecodeBackslashes(raw) == DecodeFrom(raw[index..], d)
    {
      var rest := raw[index..];
      if raw[index] != BACKSLASH {
        assert rest[1..] == raw[index + 1..];
        d := d.(text := d.text + [raw[index]]);
        index := index + 1;
      } else {
        var e := EscapeAt(rest);
        if e.None? {
          assert rest[1..] == raw[index + 1..];
          d := d.(text := d.text + [raw[index]], ambiguous := true);
          index := index + 1;
        } else {
          assert rest[e.value.length..] == raw[index + e.value.length..];
          d := d.(text := d.text + e.value.bytes, changed := true);
          index := index + e.value.length;
        }
      }
    }
  }

  /** Decoding never lengthens; it shortens exactly when it changes anything, and otherwise keeps the text. */
  lemma {:induction false} DecodeShortens(t: Text, before: Decoding)
    ensures var d := DecodeFrom(t, before);
      && (before.changed ==> d.changed)
      && |d.text| <= |before.text| + |t|
      && (if d.changed && !before.changed then |d.text| < |before.text| + |t|
          else before.changed || d.text == before.text + t)
    decreases |t|
  {
    if t == [] {
      assert before.text + t == before.text;
    } else if t[0] != BACKSLASH || EscapeAt(t).None? {
      var next := before.(text := before.text + [t[0]], ambiguous := before.ambiguous || t[0] == BACKSLASH);
      DecodeShortens(t[1..], next);
      assert before.text + [t[0]] + t[1..] == before.text + t;
    } else {
      var e := EscapeAt(t).value;
      DecodeShortens(t[e.length..], before.(text := before.text + e.bytes, changed := true));
    }
  }

  // ---- QueryUnescape ----

  predicate PercentEscape(t: Text) {
    |t| >= 3 && t[0] == PERCENT && HexValue(t[1]).Some? && HexValue(t[2]).Some?
  }

  function QueryUnescape(t: Text): Option<Text>
    decreases |t|
  {
    if t == [] then Some([])
    else if t[0] == PERCENT then
      if !PercentEscape(t) then None
      else
        var rest := QueryUnescape(t[3..]);
        if rest.None? then None else Some([(HexValue(t[1]).value * 16 + HexValue(t[2]).value) as char] + rest.value)
    else
      var rest := QueryUnescape(t[1..]);
      if rest.None? then None else Some([if t[0] == PLUS then SPACE else t[0]] + rest.value)
  }

  /** A text with a percent sign in it gets shorter when it can be unescaped. */
  lemma {:induction false} UnescapeShortens(t: Text)
    requires QueryUnescape(t).Some?
    ensures |QueryUnescape(t).value| <= |t|
    ensures PERCENT in t ==> |QueryUnescape(t).value| < |t|
    decreases |t|
  {
    if t != [] {
      if t[0] == PERCENT {
        UnescapeShortens(t[3..]);
      } else {
        UnescapeShortens(t[1..]);
        assert t == [t[0]] + t[1..];
      }
    }
  }

  // ---- Percent escapes written ----

  predicate Bytes(t: Text) {
    forall i | 0 <= i < |t| :: t[i] as nat < 256
  }

  function HexDigit(n: nat): (c: char)
    requires n < 16
    ensures HexValue(c) == Some(n) && c != BACKSLASH && c as nat < 256
  {
    if n < 10 then ('0' as nat + n) as char else ('a' as nat + n - 10) as char
  }

  /** Every byte written as a percent escape. */
  function Escaped(t: Text): (e: Text)
    requires Bytes(t)
    ensures Bytes(e) && BACKSLASH !in e
  {
    if t == [] then []
    else [PERCENT, HexDigit(t[0] as nat / 16), HexDigit(t[0] as nat % 16)] + Escaped(t[1..])
  }

  lemma {:induction false} UnescapeEscaped(t: Text)
    requires Bytes(t)
    ensures QueryUnescape(Escaped(t)) == Some(t) && |Escaped(t)| == 3 * |t|
  {
    if t != [] {
      UnescapeEscaped(t[1..]);
      var head := [PERCENT, HexDigit(t[0] as nat / 16), HexDigit(t[0] as nat % 16)];
      assert Escaped(t) == head + Escaped(t[1..]);
      assert Escaped(t)[3..] == Escaped(t[1..]);
      assert [t[0]] + t[1..] == t;
    }
  }

  /** Escaped n times over. */
  function EscapedTimes(t: Text, n: nat): (e: Text)
    requires Bytes(t)
    ensures Bytes(e)
  {
    if n == 0 then t else Escaped(EscapedTimes(t, n - 1))
  }

  lemma {:induction false} EscapedIsLonger(t: Text, n: nat)
    requires Bytes(t) && t != []
    ensures |EscapedTimes(t, n)| >= |t| + n
  {
    if n > 0 {
      EscapedIsLonger(t, n - 1);
      UnescapeEscaped(EscapedTimes(t, n - 1));
    }
  }

  // ---- deriveNormalizedVariants ----

  /** The decoded forms of a text; None where decoding is ambiguous in a text that looks like a secret. */
  function DeriveNormalizedVariants(raw: Text, encodedHint: Text -> bool, secretHint: Text -> bool): Option<seq<Text>> {
    var unescaped, decoded := QueryUnescape(raw), DecodeBackslashes(raw);
    if PERCENT in raw && unescaped.None? && encodedHint(raw) then None
    else if BACKSLASH in raw && decoded.ambiguous && secretHint(raw) then None
    else
      Some((if PERCENT in raw && unescaped.Some? && unescaped.value != raw then [unescaped.value] else [])
           + if BACKSLASH in raw && decoded.changed then [decoded.text] else [])
  }

  /** At most two forms, each strictly shorter than the text it comes from. */
  lemma DerivedIsShorter(raw: Text, encodedHint: Text -> bool, secretHint: Text -> bool)
    ensures var r := DeriveNormalizedVariants(raw, encodedHint, secretHint);
      r.Some? ==> |r.value| <= 2 && forall v | v in r.value :: |v| < |raw|
  {
    if QueryUnescape(raw).Some? {
      UnescapeShortens(raw);
    }
    DecodeShortens(raw, Decoding([], false, false));
  }

  /** One escaping is undone by one decoding. */
  lemma EscapedDerives(t: Text, encodedHint: Text -> bool, secretHint: Text -> bool)
    requires Bytes(t) && t != []
    ensures DeriveNormalizedVariants(Escaped(t), encodedHint, secretHint) == Some([t])
  {
    UnescapeEscaped(t);
    assert Escaped(t)[0] == PERCENT;
    assert [t] + [] == [t];
  }

  /** The work list's checks use these decoders. */
  ghost predicate Decodes(b: Checks<Text>, encodedHint: Text -> bool, secretHint: Text -> bool) {
    forall t :: b.derive(t) == DeriveNormalizedVariants(t, encodedHint, secretHint)
  }

  ghost predicate Shortens(b: Checks<Text>) {
    forall u, v | Derives(b, u, v) :: |v| < |u|
  }

  lemma DecodersShorten(b: Checks<Text>, encodedHint: Text -> bool, secretHint: Text -> bool)
    requires Decodes(b, encodedHint, secretHint)
    ensures Shortens(b)
  {
    forall u, v | Derives(b, u, v) ensures |v| < |u| {
      DerivedIsShorter(u, encodedHint, secretHint);
    }
  }

  /** A text escaped n times over is within n decodings of the result. */
  lemma {:induction false} EscapedIsWithin(b: Checks<Text>, encodedHint: Text -> bool, secretHint: Text -> bool,
                                           t: Text, n: nat, m: nat)
    requires Decodes(b, encodedHint, secretHint) && Bytes(t) && t != [] && m <= n
    ensures Within(b, EscapedTimes(t, n), n - m, EscapedTimes(t, m))
    decreases n - m
  {
    if m < n {
      var u := EscapedTimes(t, m);
      EscapedIsWithin(b, encodedHint, secretHint, t, n, m + 1);
      EscapedIsLonger(t, m);
      EscapedDerives(u, encodedHint, secretHint);
      assert Derives(b, Escaped(u), u);
    }
  }

  /** Then a text never comes back: every other form within reach is strictly shorter. */
  lemma {:induction false} ReachShortens(b: Checks<Text>, raw: Text, k: nat, v: Text)
    requires Shortens(b) && Within(b, raw, k, v)
    ensures v == raw || |v| < |raw|
    decreases k
  {
    if k > 0 {
      if Within(b, raw, k - 1, v) {
        ReachShortens(b, raw, k - 1, v);
      } else {
        var u :| Within(b, raw, k - 1, u) && Derives(b, u, v);
        ReachShortens(b, raw, k - 1, u);
      }
    }
  }
}
