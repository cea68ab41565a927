/**
  Signature encodings of internal/keyvault/ecdsa.go. Integers and lengths follow ITU-T X.690, sections
  8.1.3, 8.3, 8.9 and 10.1, as Go's encoding/asn1 reads and writes them; ECDSA-Sig-Value is that of
  RFC 3279, section 2.2.3.
 */
module Ecdsa {
  import opened Common

  type Byte = x: int | 0 <= x < 256

  // ---- Base 256 ----

  function Pow256(k: nat): (p: nat)
    ensures p > 0
  {
    if k == 0 then 1 else 256 * Pow256(k - 1)
  }

  /** The big-endian value, as big.Int.SetBytes computes it. */
  function FromBytes(b: seq<Byte>): nat {
    if b == [] then 0 else FromBytes(b[..|b| - 1]) * 256 + b[|b| - 1]
  }

  /** The shortest big-endian bytes, as big.Int.Bytes returns them. */
  function BytesOf(n: nat): seq<Byte> {
    if n == 0 then [] else BytesOf(n / 256) + [n % 256]
  }

  /** Exactly k big-endian bytes, as big.Int.FillBytes writes them. */
  function FillBytes(n: nat, k: nat): (b: seq<Byte>)
    ensures |b| == k
  {
    if k == 0 then [] else FillBytes(n / 256, k - 1) + [n % 256]
  }

  lemma FromBytesAppend(b: seq<Byte>, x: Byte)
    ensures FromBytes(b + [x]) == FromBytes(b) * 256 + x
  {
    assert (b + [x])[..|b|] == b;
  }

  predicate NoLeadingZero(b: seq<Byte>) {
    b == [] || b[0] != 0
  }

  lemma {:induction false} BytesOfValue(n: nat)
    ensures FromBytes(BytesOf(n)) == n && NoLeadingZero(BytesOf(n)) && (n != 0 ==> BytesOf(n) != [])
  {
    if n != 0 {
      BytesOfValue(n / 256);
      FromBytesAppend(BytesOf(n / 256), n % 256);
    }
  }

  lemma {:induction false} ValueBytes(b: seq<Byte>)
    requires NoLeadingZero(b)
    ensures BytesOf(FromBytes(b)) == b && (b != [] ==> FromBytes(b) != 0)
  {
    if b != [] {
      var front, last := b[..|b| - 1], b[|b| - 1];
      ValueBytes(front);
      assert front == [] ==> last != 0;
      BytesOfAppend(FromBytes(front), last);
      assert b == front + [last];
    }
  }

  lemma BytesOfAppend(m: nat, x: Byte)
    requires m != 0 || x != 0
    ensures m * 256 + x != 0 && BytesOf(m * 256 + x) == BytesOf(m) + [x]
  {
    assert (m * 256 + x) / 256 == m && (m * 256 + x) % 256 == x;
  }

  lemma {:induction false} LeadingZero(b: seq<Byte>)
    ensures FromBytes([0] + b) == FromBytes(b)
  {
    if b == [] {
      assert FromBytes([0]) == 0;
    } else {
      var front, last := b[..|b| - 1], b[|b| - 1];
      LeadingZero(front);
      FromBytesAppend([0] + front, last);
      assert [0] + b == [0] + front + [last];
    }
  }

  lemma {:induction false} FromBytesBound(b: seq<Byte>)
    ensures FromBytes(b) < Pow256(|b|)
  {
    if b != [] {
      FromBytesBound(b[..|b| - 1]);
    }
  }

  lemma QuotientBound(n: nat, p: nat)
    requires n < 256 * p
    ensures n / 256 < p
  {
  }

  lemma {:induction false} FillBytesValue(n: nat, k: nat)
    requires n < Pow256(k)
    ensures FromBytes(FillBytes(n, k)) == n
  {
    if k != 0 {
      var front := FillBytes(n / 256, k - 1);
      QuotientBound(n, Pow256(k - 1));
      FillBytesValue(n / 256, k - 1);
      assert FillBytes(n, k) == front + [n % 256];
      FromBytesAppend(front, n % 256);
    }
  }

  lemma {:induction false} ValueFillBytes(b: seq<Byte>)
    ensures FillBytes(FromBytes(b), |b|) == b
  {
    if b != [] {
      var front, last := b[..|b| - 1], b[|b| - 1];
      assert b == front + [last];
      ValueFillBytes(front);
      assert FromBytes(b) / 256 == FromBytes(front) && FromBytes(b) % 256 == last;
    }
  }

  lemma {:induction false} BytesOfLength(n: nat, k: nat)
    requires n < Pow256(k)
    ensures |BytesOf(n)| <= k
  {
    if n != 0 {
      QuotientBound(n, Pow256(k - 1));
      BytesOfLength(n / 256, k - 1);
    }
  }

  // ---- Two's complement integers ----

  function Invert(b: seq<Byte>): (c: seq<Byte>)
    ensures |c| == |b|
  {
    seq(|b|, i requires 0 <= i < |b| => 255 - b[i])
  }

  function NaturalBytes(n: nat): (b: seq<Byte>)
    ensures b != []
  {
    var b := BytesOf(n);
    if b == [] || b[0] >= 128 then [0] + b else b
  }

  /** The content of an INTEGER: the shortest two's complement form. */
  function IntegerBytes(n: int): (b: seq<Byte>)
    ensures b != []
  {
    if n >= 0 then NaturalBytes(n) else Invert(NaturalBytes(-n - 1))
  }

  function IntegerValue(b: seq<Byte>): int
    requires b != []
  {
    FromBytes(b) - (if b[0] >= 128 then Pow256(|b|) else 0)
  }

  /** The decoder's check that an INTEGER is not empty and has no superfluous first byte. */
  predicate Minimal(b: seq<Byte>) {
    b != [] && (|b| == 1 || !((b[0] == 0 && b[1] < 128) || (b[0] == 255 && b[1] >= 128)))
  }

  lemma {:induction false} InvertValue(b: seq<Byte>)
    ensures FromBytes(Invert(b)) == Pow256(|b|) - 1 - FromBytes(b)
  {
    if b != [] {
      var front, last := b[..|b| - 1], b[|b| - 1];
      InvertValue(front);
      FromBytesAppend(Invert(front), 255 - last);
      assert Invert(b) == Invert(front) + [255 - last];
    }
  }

  lemma InvertNegates(b: seq<Byte>)
    requires b != []
    ensures IntegerValue(Invert(b)) == -IntegerValue(b) - 1
    ensures Minimal(b) ==> Minimal(Invert(b))
    ensures Invert(Invert(b)) == b
  {
    InvertValue(b);
  }

  lemma NaturalRoundTrip(n: nat)
    ensures IntegerValue(IntegerBytes(n)) == n && Minimal(IntegerBytes(n)) && IntegerBytes(n)[0] < 128
  {
    BytesOfValue(n);
    LeadingZero(BytesOf(n));
  }

  /** Encoding then decoding an integer, of either sign. */
  lemma IntegerRoundTrip(n: int)
    ensures IntegerValue(IntegerBytes(n)) == n && Minimal(IntegerBytes(n))
  {
    if n >= 0 {
      NaturalRoundTrip(n);
    } else {
      NaturalRoundTrip(-n - 1);
      InvertNegates(IntegerBytes(-n - 1));
    }
  }

  lemma NonNegativeBytes(b: seq<Byte>)
    requires Minimal(b) && b[0] < 128
    ensures IntegerBytes(IntegerValue(b)) == b && IntegerValue(b) >= 0
  {
    if b[0] == 0 {
      assert b == [0] + b[1..];
      LeadingZero(b[1..]);
      ValueBytes(b[1..]);
    } else {
      ValueBytes(b);
    }
  }

  /** Decoding then encoding a minimal integer. */
  lemma MinimalRoundTrip(b: seq<Byte>)
    requires Minimal(b)
    ensures IntegerBytes(IntegerValue(b)) == b
  {
    if b[0] < 128 {
      NonNegativeBytes(b);
    } else {
      InvertNegates(b);
      NonNegativeBytes(Invert(b));
      NegativeBytes(IntegerValue(Invert(b)));
    }
  }

  lemma NegativeBytes(m: int)
    requires m >= 0
    ensures IntegerBytes(-m - 1) == Invert(IntegerBytes(m))
  {
  }

  // ---- Tags and lengths ----

  const SEQUENCE: Byte := 0x30
  const INTEGER: Byte := 0x02
  const LENGTH_LIMIT: nat := 0x80_0000

  /** The definite length; the count of length bytes is below 128 for every text that fits in memory. */
  function LengthBytes(n: nat): (b: seq<Byte>)
    ensures b != []
  {
    if n < 128 then [n] else [(128 + |BytesOf(n)|) % 256] + BytesOf(n)
  }

  datatype LengthRead = LengthRead(length: nat, rest: seq<Byte>)

  function ReadLength(data: seq<Byte>): Option<LengthRead> {
    if data == [] then None
    else if data[0] < 128 then Some(LengthRead(data[0], data[1..]))
    else if data[0] == 128 then None
    else
      var r := ReadLong(0, data[0] - 128, data[1..]);
      if r.None? || r.value.length < 128 then None else r
  }

  /** Long form: no leading zero, nothing too large. */
  function ReadLong(length: nat, k: nat, data: seq<Byte>): Option<LengthRead>
    decreases k
  {
    if k == 0 then Some(LengthRead(length, data))
    else if data == [] || length >= LENGTH_LIMIT || length * 256 + data[0] == 0 then None
    else ReadLong(length * 256 + data[0], k - 1, data[1..])
  }

  lemma {:induction false} ReadLongDigits(digits: seq<Byte>, k: nat, data: seq<Byte>)
    requires NoLeadingZero(digits)
    requires ReadLong(FromBytes(digits), k, data).Some?
    ensures k <= |data| && NoLeadingZero(digits + data[..k])
    ensures ReadLong(FromBytes(digits), k, data) == Some(LengthRead(FromBytes(digits + data[..k]), data[k..]))
    decreases k
  {
    if k == 0 {
      assert digits + data[..0] == digits;
    } else {
      ReadLongStep(digits, k, data);
      ReadLongDigits(digits + [data[0]], k - 1, data[1..]);
      NextDigit(digits, k, data);
    }
  }

  lemma ReadLongStep(digits: seq<Byte>, k: nat, data: seq<Byte>)
    requires NoLeadingZero(digits) && k > 0 && ReadLong(FromBytes(digits), k, data).Some?
    ensures data != [] && NoLeadingZero(digits + [data[0]])
    ensures ReadLong(FromBytes(digits), k, data) == ReadLong(FromBytes(digits + [data[0]]), k - 1, data[1..])
  {
    FromBytesAppend(digits, data[0]);
    if digits == [] {
      assert FromBytes(digits) == 0;
    }
  }

  lemma NextDigit(digits: seq<Byte>, k: nat, data: seq<Byte>)
    requires 0 < k <= |data|
    ensures digits + [data[0]] + data[1..][..k - 1] == digits + data[..k] && data[1..][k - 1..] == data[k..]
  {
  }

  /** Every accepted length is written in the one form that the encoder uses. */
  lemma LengthIsCanonical(data: seq<Byte>)
    requires ReadLength(data).Some?
    ensures data == LengthBytes(ReadLength(data).value.length) + ReadLength(data).value.rest
  {
    if data[0] >= 128 {
      LongLengthIsCanonical(data[0] - 128, data[1..]);
    }
  }

  lemma LongLengthIsCanonical(k: nat, tail: seq<Byte>)
    requires ReadLong(0, k, tail).Some?
    ensures var r := ReadLong(0, k, tail).value;
      k <= |tail| && BytesOf(r.length) == tail[..k] && r.rest == tail[k..]
  {
    ReadLongDigits([], k, tail);
    assert [] + tail[..k] == tail[..k];
    ValueBytes(tail[..k]);
  }

  lemma ShortLength(n: nat, rest: seq<Byte>)
    requires n < 128
    ensures ReadLength(LengthBytes(n) + rest) == Some(LengthRead(n, rest))
  {
  }

  datatype Element = Element(content: seq<Byte>, rest: seq<Byte>)

  function EncodeElement(tag: Byte, content: seq<Byte>): seq<Byte> {
    [tag] + LengthBytes(|content|) + content
  }

  function ReadElement(tag: Byte, data: seq<Byte>): Option<Element> {
    if data == [] || data[0] != tag then None
    else
      var length := ReadLength(data[1..]);
      if length.None? || length.value.length > |length.value.rest| then None
      else Some(Element(length.value.rest[..length.value.length], length.value.rest[length.value.length..]))
  }

  lemma ElementIsCanonical(tag: Byte, data: seq<Byte>)
    requires ReadElement(tag, data).Some?
    ensures var e := ReadElement(tag, data).value; data == EncodeElement(tag, e.content) + e.rest
  {
    LengthIsCanonical(data[1..]);
    var length := ReadLength(data[1..]).value;
    assert data == [tag] + data[1..];
    Reassemble(tag, LengthBytes(length.length), length.rest, length.length);
  }

  lemma Reassemble(tag: Byte, length: seq<Byte>, rest: seq<Byte>, n: nat)
    requires n <= |rest|
    ensures [tag] + (length + rest) == [tag] + length + rest[..n] + rest[n..]
  {
    assert rest == rest[..n] + rest[n..];
  }

  lemma ShortElement(tag: Byte, content: seq<Byte>, rest: seq<Byte>)
    requires |content| < 128
    ensures ReadElement(tag, EncodeElement(tag, content) + rest) == Some(Element(content, rest))
  {
    var data := EncodeElement(tag, content) + rest;
    assert data[1..] == LengthBytes(|content|) + (content + rest);
    ShortLength(|content|, content + rest);
  }

  // ---- SEQUENCE { r INTEGER, s INTEGER } ----

  datatype Signature = Signature(r: int, s: int)

  datatype IntegerRead = IntegerRead(value: int, rest: seq<Byte>)

  function ReadInteger(data: seq<Byte>): Option<IntegerRead> {
    var e := ReadElement(INTEGER, data);
    if e.None? || !Minimal(e.value.content) then None
    else Some(IntegerRead(IntegerValue(e.value.content), e.value.rest))
  }

  function EncodeInteger(n: int): seq<Byte> {
    EncodeElement(INTEGER, IntegerBytes(n))
  }

  function Marshal(sig: Signature): seq<Byte> {
    EncodeElement(SEQUENCE, EncodeInteger(sig.r) + EncodeInteger(sig.s))
  }

  /** extra: bytes of the SEQUENCE behind s, which the decoder skips; rest: bytes behind the SEQUENCE. */
  datatype Unmarshalled = Unmarshalled(sig: Signature, extra: seq<Byte>, rest: seq<Byte>)

  function Unmarshal(data: seq<Byte>): Option<Unmarshalled> {
    var e := ReadElement(SEQUENCE, data);
    if e.None? then None
    else
      var r := ReadInteger(e.value.content);
      if r.None? then None
      else
        var s := ReadInteger(r.value.rest);
        if s.None? then None else Some(Unmarshalled(Signature(r.value.value, s.value.value), s.value.rest,
          e.value.rest))
  }

  lemma IntegerIsCanonical(data: seq<Byte>)
    requires ReadInteger(data).Some?
    ensures data == EncodeInteger(ReadInteger(data).value.value) + ReadInteger(data).value.rest
  {
    ElementIsCanonical(INTEGER, data);
    MinimalRoundTrip(ReadElement(INTEGER, data).value.content);
  }

  /** The decoder pins every byte down except the ones it skips. */
  lemma UnmarshalIsCanonical(data: seq<Byte>)
    requires Unmarshal(data).Some?
    ensures var u := Unmarshal(data).value;
      data == EncodeElement(SEQUENCE, EncodeInteger(u.sig.r) + EncodeInteger(u.sig.s) + u.extra) + u.rest
  {
    ElementIsCanonical(SEQUENCE, data);
    TwoIntegersAreCanonical(ReadElement(SEQUENCE, data).value.content);
  }

  lemma TwoIntegersAreCanonical(content: seq<Byte>)
    requires ReadInteger(content).Some? && ReadInteger(ReadInteger(content).value.rest).Some?
    ensures var r := ReadInteger(content).value; var s := ReadInteger(r.rest).value;
      content == EncodeInteger(r.value) + EncodeInteger(s.value) + s.rest
  {
    var behind := ReadInteger(content).value.rest;
    IntegerIsCanonical(content);
    IntegerIsCanonical(behind);
  }

  /** So re-encoding refuses exactly the texts with skipped bytes inside the SEQUENCE. */
  lemma ReencodingIsExact(data: seq<Byte>)
    requires Unmarshal(data).Some? && Unmarshal(data).value.rest == []
    ensures Marshal(Unmarshal(data).value.sig) == data <==> Unmarshal(data).value.extra == []
  {
    var u := Unmarshal(data).value;
    UnmarshalIsCanonical(data);
    var body := EncodeInteger(u.sig.r) + EncodeInteger(u.sig.s);
    if u.extra == [] {
      assert body + u.extra == body;
      assert EncodeElement(SEQUENCE, body) + u.rest == EncodeElement(SEQUENCE, body);
    } else if Marshal(u.sig) == data {
      var e := ReadElement(SEQUENCE, data).value;
      ElementIsCanonical(SEQUENCE, data);
      SameContent(SEQUENCE, body, body + u.extra);
    }
  }

  lemma SameContent(tag: Byte, a: seq<Byte>, b: seq<Byte>)
    requires |a| < |b|
    ensures EncodeElement(tag, a) != EncodeElement(tag, b)
  {
    LongerLength(|a|, |b|);
  }

  lemma LongerLength(m: nat, n: nat)
    requires m < n
    ensures |LengthBytes(m)| <= |LengthBytes(n)|
  {
    if m >= 128 {
      MoreBytes(m, n);
    }
  }

  lemma {:induction false} MoreBytes(m: nat, n: nat)
    requires m <= n
    ensures |BytesOf(m)| <= |BytesOf(n)|
  {
    if m != 0 {
      MoreBytes(m / 256, n / 256);
    }
  }

  // ---- ParseSignature and Encode ----

  const ORDER: int := 0xffffffff00000000ffffffffffffffffbce6faada7179e84f3b9cac2fc632551
  const HALF_ORDER: int := ORDER / 2
  const RAW_SIZE: nat := 64

  datatype Format = Raw | Der | Other

  datatype Refusal = InvalidSignature | InvalidFormat

  predicate InRange(sig: Signature) {
    1 <= sig.r < ORDER && 1 <= sig.s < ORDER
  }

  function CheckRange(sig: Signature): Result<Signature, Refusal> {
    if sig.r <= 0 || sig.s <= 0 || sig.r >= ORDER || sig.s >= ORDER then Err(InvalidSignature) else Ok(sig)
  }

  function ParseSignature(data: seq<Byte>, format: Format): Result<Signature, Refusal> {
    match format
    case Raw =>
      if |data| != RAW_SIZE then Err(InvalidSignature)
      else CheckRange(Signature(FromBytes(data[..32]), FromBytes(data[32..])))
    case Der =>
      var u := Unmarshal(data);
      if u.None? || u.value.rest != [] then Err(InvalidSignature)
      else if Marshal(u.value.sig) != data then Err(InvalidSignature)
      else CheckRange(u.value.sig)
    case Other => Err(InvalidFormat)
  }

  /** FillBytes needs the integers to fit in 32 bytes. */
  function Encode(sig: Signature, format: Format): Result<seq<Byte>, Refusal>
    requires 0 <= sig.r < Pow256(32) && 0 <= sig.s < Pow256(32)
  {
    match format
    case Raw => Ok(FillBytes(sig.r, 32) + FillBytes(sig.s, 32))
    case Der => Ok(Marshal(sig))
    case Other => Err(InvalidFormat)
  }

  lemma OrderFits()
    ensures ORDER < Pow256(32)
  {
    assert Pow256(8) == 0x1_0000_0000_0000_0000;
    PowAdd(8, 8);
    PowAdd(16, 16);
  }

  lemma {:induction false} PowAdd(a: nat, b: nat)
    ensures Pow256(a + b) == Pow256(a) * Pow256(b)
  {
    if a != 0 {
      PowAdd(a - 1, b);
      assert 256 * (Pow256(a - 1) * Pow256(b)) == (256 * Pow256(a - 1)) * Pow256(b);
    }
  }

  lemma IntegerLength(n: nat)
    requires n < ORDER
    ensures |IntegerBytes(n)| <= 33 && |EncodeInteger(n)| <= 35
  {
    OrderFits();
    BytesOfLength(n, 32);
  }

  /** A DER signature takes at most 72 bytes. */
  lemma DerLength(sig: Signature)
    requires InRange(sig)
    ensures |Marshal(sig)| <= 72
  {
    IntegerLength(sig.r);
    IntegerLength(sig.s);
  }

  lemma UnmarshalMarshal(sig: Signature)
    requires InRange(sig)
    ensures Unmarshal(Marshal(sig)) == Some(Unmarshalled(sig, [], []))
  {
    var r, s := EncodeInteger(sig.r), EncodeInteger(sig.s);
    IntegerLength(sig.r);
    IntegerLength(sig.s);
    ShortElement(SEQUENCE, r + s, []);
    assert Marshal(sig) + [] == Marshal(sig) && s + [] == s;
    ReadEncodedInteger(sig.r, s);
    ReadEncodedInteger(sig.s, []);
  }

  lemma ReadEncodedInteger(n: int, rest: seq<Byte>)
    requires |IntegerBytes(n)| < 128
    ensures ReadInteger(EncodeInteger(n) + rest) == Some(IntegerRead(n, rest))
  {
    IntegerRoundTrip(n);
    ShortElement(INTEGER, IntegerBytes(n), rest);
  }

  /** What Encode writes, ParseSignature reads back. */
  lemma ParseAfterEncode(sig: Signature, format: Format)
    requires InRange(sig) && format != Other
    ensures 0 <= sig.r < Pow256(32) && 0 <= sig.s < Pow256(32)
    ensures Encode(sig, format).Ok? && ParseSignature(Encode(sig, format).value, format) == Ok(sig)
  {
    OrderFits();
    if format == Raw {
      var data := FillBytes(sig.r, 32) + FillBytes(sig.s, 32);
      FillBytesValue(sig.r, 32);
      FillBytesValue(sig.s, 32);
      assert data[..32] == FillBytes(sig.r, 32) && data[32..] == FillBytes(sig.s, 32);
    } else {
      UnmarshalMarshal(sig);
    }
  }

  /** What ParseSignature accepts is in range and is exactly what Encode writes for it. */
  lemma EncodeAfterParse(data: seq<Byte>, format: Format)
    requires ParseSignature(data, format).Ok?
    ensures var sig := ParseSignature(data, format).value;
      InRange(sig) && 0 <= sig.r < Pow256(32) && 0 <= sig.s < Pow256(32) && Encode(sig, format) == Ok(data)
  {
    OrderFits();
    if format == Raw {
      ValueFillBytes(data[..32]);
      ValueFillBytes(data[32..]);
      assert data == data[..32] + data[32..];
    }
  }

  /** So accepted texts and in-range pairs correspond one to one. */
  lemma AcceptanceIsExact(data: seq<Byte>, format: Format, sig: Signature)
    requires 0 <= sig.r < Pow256(32) && 0 <= sig.s < Pow256(32)
    ensures ParseSignature(data, format) == Ok(sig) <==> InRange(sig) && Encode(sig, format) == Ok(data)
    ensures ParseSignature(data, Der) == Ok(sig) ==> |data| <= 72
  {
    if ParseSignature(data, format) == Ok(sig) {
      EncodeAfterParse(data, format);
    } else if InRange(sig) && Encode(sig, format) == Ok(data) {
      ParseAfterEncode(sig, format);
    }
    if ParseSignature(data, Der) == Ok(sig) {
      EncodeAfterParse(data, Der);
      DerLength(sig);
    }
  }

  // ---- Low S ----

  predicate IsLowS(sig: Signature) {
    sig.s <= HALF_ORDER
  }

  function LowS(sig: Signature): Signature {
    if IsLowS(sig) then sig else Signature(sig.r, ORDER - sig.s)
  }

  /** LowS picks the one low member of {s, n - s}; it stays in range and changes nothing the second time. */
  lemma LowSIsTheLowMember(sig: Signature)
    requires InRange(sig)
    ensures InRange(LowS(sig)) && IsLowS(LowS(sig)) && LowS(sig).r == sig.r
    ensures sig.s <= HALF_ORDER <==> LowS(sig).s == sig.s
    ensures ORDER - sig.s <= HALF_ORDER <==> LowS(sig).s == ORDER - sig.s
    ensures LowS(LowS(sig)) == LowS(sig)
    ensures LowS(Signature(sig.r, ORDER - sig.s)) == LowS(sig)
  {
  }
}
