/** What the registry's SHA-256 compresses: the UTF-8 bytes of a text, padded to whole blocks. Different texts give different blocks. */
module Sha256Input {
  import opened Prelude
  import opened JsonText
  import opened JsonValues
  import opened CanonicalJson

  newtype Byte = x: int | 0 <= x < 0x100

  const MAX_SYMBOL := 0x10FFFF

  // ------------------------------------------------------------------------- UTF-8

  /** The symbol a text begins with: a surrogate pair, or one unit. */
  function FirstSymbol(s: Text): (r: (nat, nat))
    requires s != []
    ensures r.0 <= MAX_SYMBOL && 0 < r.1 <= |s|
  {
    if StartsPair(s) then (0x1_0000 + (s[0] as nat - 0xD800) * 0x400 + (s[1] as nat - 0xDC00), 2) else (s[0] as nat, 1)
  }

  function UnitsOf(symbol: nat): (r: Text)
    requires symbol <= MAX_SYMBOL
    ensures r != []
  {
    if symbol < 0x1_0000 then [symbol as CodeUnit]
    else [(0xD800 + (symbol - 0x1_0000) / 0x400) as CodeUnit, (0xDC00 + (symbol - 0x1_0000) % 0x400) as CodeUnit]
  }

  function Trailing(n: nat): Byte {
    (0x80 + n % 0x40) as Byte
  }

  function EncodeSymbol(symbol: nat): (r: seq<Byte>)
    requires symbol <= MAX_SYMBOL
    ensures 1 <= |r| <= 4
  {
    if symbol <= 0x7F then [symbol as Byte]
    else if symbol <= 0x7FF then [(0xC0 + symbol / 0x40) as Byte, Trailing(symbol)]
    else if symbol <= 0xFFFF then [(0xE0 + symbol / 0x1000) as Byte, Trailing(symbol / 0x40), Trailing(symbol)]
    else [(0xF0 + symbol / 0x4_0000) as Byte, Trailing(symbol / 0x1000), Trailing(symbol / 0x40), Trailing(symbol)]
  }

  function Utf8(s: Text): seq<Byte> {
    if s == [] then [] else EncodeSymbol(FirstSymbol(s).0) + Utf8(s[FirstSymbol(s).1..])
  }

  function Payload(b: Byte): int {
    b as int - 0x80
  }

  /** The symbol that bytes begin with, and how many it takes. */
  function DecodeSymbol(bytes: seq<Byte>): (r: Option<(nat, nat)>)
    ensures r.Some? ==> r.value.0 <= MAX_SYMBOL && 0 < r.value.1 <= |bytes|
  {
    if bytes == [] then None
    else
      var b := bytes[0] as int;
      var n := if b < 0x80 then 1 else if b < 0xE0 then 2 else if b < 0xF0 then 3 else 4;
      if |bytes| < n then None
      else
        var symbol := if n == 1 then b
                      else if n == 2 then (b - 0xC0) * 0x40 + Payload(bytes[1])
                      else if n == 3 then (b - 0xE0) * 0x1000 + Payload(bytes[1]) * 0x40 + Payload(bytes[2])
                      else (b - 0xF0) * 0x4_0000 + Payload(bytes[1]) * 0x1000 + Payload(bytes[2]) * 0x40 + Payload(bytes[3]);
        if 0 <= symbol <= MAX_SYMBOL then Some((symbol, n)) else None
  }

  function DecodeUtf8(bytes: seq<Byte>): Text {
    var first := DecodeSymbol(bytes);
    if first.None? then [] else UnitsOf(first.value.0) + DecodeUtf8(bytes[first.value.1..])
  }

  lemma SymbolBytes(symbol: nat)
    requires symbol <= MAX_SYMBOL
    ensures symbol == symbol / 0x40 * 0x40 + symbol % 0x40
    ensures symbol == symbol / 0x1000 * 0x1000 + symbol / 0x40 % 0x40 * 0x40 + symbol % 0x40
    ensures symbol == symbol / 0x4_0000 * 0x4_0000 + symbol / 0x1000 % 0x40 * 0x1000 + symbol / 0x40 % 0x40 * 0x40 + symbol % 0x40
  {
    assert symbol / 0x40 == symbol / 0x1000 * 0x40 + symbol / 0x40 % 0x40;
    assert symbol / 0x1000 == symbol / 0x4_0000 * 0x40 + symbol / 0x1000 % 0x40;
  }

  lemma SymbolRoundTrip(symbol: nat, rest: seq<Byte>)
    requires symbol <= MAX_SYMBOL
    ensures DecodeSymbol(EncodeSymbol(symbol) + rest) == Some((symbol, |EncodeSymbol(symbol)|))
  {
    SymbolBytes(symbol);
    var bytes := EncodeSymbol(symbol) + rest;
    assert bytes[..|EncodeSymbol(symbol)|] == EncodeSymbol(symbol);
  }

  lemma FirstUnits(s: Text)
    requires s != []
    ensures UnitsOf(FirstSymbol(s).0) == s[..FirstSymbol(s).1]
  {
  }

  lemma DecodeStep(bytes: seq<Byte>, rest: seq<Byte>, symbol: nat)
    requires symbol <= MAX_SYMBOL && DecodeSymbol(bytes + rest) == Some((symbol, |bytes|))
    ensures DecodeUtf8(bytes + rest) == UnitsOf(symbol) + DecodeUtf8(rest)
  {
    assert (bytes + rest)[|bytes|..] == rest;
  }

  lemma Rejoined(s: Text, n: nat, first: Text, rest: Text)
    requires n <= |s| && first == s[..n] && rest == s[n..]
    ensures first + rest == s
  {
  }

  /** Decoding gives every text back, lone surrogates included. */
  lemma {:induction false} Utf8RoundTrip(s: Text)
    ensures DecodeUtf8(Utf8(s)) == s
  {
    if s != [] {
      var (symbol, n) := FirstSymbol(s);
      SymbolRoundTrip(symbol, Utf8(s[n..]));
      DecodeStep(EncodeSymbol(symbol), Utf8(s[n..]), symbol);
      Utf8RoundTrip(s[n..]);
      FirstUnits(s);
      Rejoined(s, n, UnitsOf(symbol), DecodeUtf8(Utf8(s[n..])));
    }
  }

  lemma {:induction false} Utf8Append(s: Text, done: seq<Byte>, i: nat)
    requires i < |s|
    ensures done + Utf8(s[i..]) == (done + EncodeSymbol(FirstSymbol(s[i..]).0)) + Utf8(s[i + FirstSymbol(s[i..]).1..])
  {
    var n := FirstSymbol(s[i..]).1;
    assert s[i..][n..] == s[i + n..];
    Regroup(done, EncodeSymbol(FirstSymbol(s[i..]).0), Utf8(s[i + n..]));
  }

  /** `utf8Bytes`. */
  method Utf8Bytes(s: Text) returns (bytes: seq<Byte>)
    ensures bytes == Utf8(s)
  {
    bytes := [];
    var i := 0;
    while i < |s|
      invariant i <= |s| && bytes + Utf8(s[i..]) == Utf8(s)
    {
      var (symbol, n) := FirstSymbol(s[i..]);
      Utf8Append(s, bytes, i);
      bytes := bytes + EncodeSymbol(symbol);
      i := i + n;
    }
    assert bytes + [] == bytes;
  }

  // ----------------------------------------------------------------------- padding

  function Zeros(n: nat): (r: seq<Byte>)
    ensures |r| == n && forall i | 0 <= i < n :: r[i] == 0
  {
    seq(n, _ => 0)
  }

  function Power256(n: nat): (r: nat)
    ensures r > 0
  {
    if n == 0 then 1 else 0x100 * Power256(n - 1)
  }

  /** `(value >> 8n * k) & 0xff`. */
  function ShiftedByte(value: nat, k: nat): Byte {
    (value / Power256(k) % 0x100) as Byte
  }

  /** The last 8 bytes of a number, highest first. */
  function LengthBytes(value: nat): (r: seq<Byte>)
    ensures |r| == 8 && forall i | 0 <= i < 8 :: r[i] == ShiftedByte(value, 7 - i)
  {
    seq(8, i requires 0 <= i < 8 => ShiftedByte(value, 7 - i))
  }

  /** The message, one bit, and zeros up to 8 bytes before the end of a block. */
  function Marked(message: seq<Byte>): (r: seq<Byte>)
    ensures |r| % 64 == 56 && |r| > |message|
  {
    message + [0x80] + Zeros((55 - |message|) % 64)
  }

  function Padded(message: seq<Byte>): (r: seq<Byte>)
    ensures |r| % 64 == 0
  {
    Marked(message) + LengthBytes(8 * |message|)
  }

  /** Different messages have different blocks, however long. */
  lemma PaddingIsInjective(a: seq<Byte>, b: seq<Byte>)
    ensures Padded(a) == Padded(b) <==> a == b
  {
    if Padded(a) == Padded(b) {
      var x, y := Marked(a), Marked(b);
      assert x == Padded(a)[..|x|] && y == Padded(b)[..|y|] && |x| == |y|;
      assert x[|a|] == 0x80 && y[|b|] == 0x80;
      assert forall k | |a| < k < |x| :: x[k] == 0;
      assert forall k | |b| < k < |y| :: y[k] == 0;
      assert a == x[..|a|] && b == y[..|b|];
    }
  }

  /** The number the bytes stand for, highest first. */
  function BigEndian(bytes: seq<Byte>): nat {
    if bytes == [] then 0 else 0x100 * BigEndian(bytes[..|bytes| - 1]) + bytes[|bytes| - 1] as nat
  }

  lemma Regrouped(a: nat, b: nat, p: nat)
    ensures (a * 0x100 + b) * p == a * (0x100 * p) + b * p
  {
  }

  lemma Within(b: nat, p: nat, r: nat)
    requires b < 0x100 && r < p
    ensures b * p + r < 0x100 * p
  {
    assert (0xFF - b) * p >= 0;
    assert b * p + (0xFF - b) * p == 0xFF * p;
  }

  lemma DivideAgain(x: nat, p: nat)
    requires p > 0
    ensures x / (0x100 * p) == x / p / 0x100
  {
    var q, r := x / p, x % p;
    var a, b := q / 0x100, q % 0x100;
    assert x == q * p + r && q == a * 0x100 + b;
    Regrouped(a, b, p);
    Within(b, p, r);
    QuotientIs(x, 0x100 * p, a, b * p + r);
  }

  lemma NoMultiple(k: int, d: int)
    requires -d < k * d < d
    ensures k == 0
  {
  }

  lemma QuotientIs(x: nat, d: nat, q: nat, r: nat)
    requires x == q * d + r && r < d
    ensures x / d == q && x % d == r
  {
    assert x == x / d * d + x % d;
    assert (x / d - q) * d == r - x % d;
    NoMultiple(x / d - q, d);
  }

  lemma OneMoreByte(x: nat, p: nat)
    requires p > 0
    ensures 0x100 * (x / 0x100 % p) + x % 0x100 == x % (0x100 * p)
  {
    var a := x / 0x100;
    assert a == a / p * p + a % p;
    assert x == a / p * (0x100 * p) + (0x100 * (a % p) + x % 0x100);
    QuotientIs(x, 0x100 * p, a / p, 0x100 * (a % p) + x % 0x100);
  }

  /** The upper `j` bytes of a number of 8 bytes. */
  function UpperPart(value: nat, j: nat): nat
    requires j <= 8
  {
    value / Power256(8 - j) % Power256(j)
  }

  lemma NextPart(value: nat, j: nat)
    requires 0 < j <= 8
    ensures UpperPart(value, j) == 0x100 * UpperPart(value, j - 1) + ShiftedByte(value, 8 - j) as nat
  {
    DivideAgain(value, Power256(8 - j));
    OneMoreByte(value / Power256(8 - j), Power256(j - 1));
  }

  lemma LastByte(bytes: seq<Byte>, j: nat)
    requires 0 < j <= |bytes|
    ensures BigEndian(bytes[..j]) == 0x100 * BigEndian(bytes[..j - 1]) + bytes[j - 1] as nat
  {
    assert bytes[..j][..j - 1] == bytes[..j - 1];
  }

  /** The first `j` of the 8 bytes say the upper part. */
  lemma {:induction false} LengthIsRead(value: nat, j: nat)
    requires j <= 8
    ensures BigEndian(LengthBytes(value)[..j]) == UpperPart(value, j)
  {
    if j > 0 {
      LengthIsRead(value, j - 1);
      LastByte(LengthBytes(value), j);
      NextPart(value, j);
    }
  }

  /**
   * The padded message: the message, one bit, as few zeros as fill the blocks, and in the last 8 bytes the length in bits
   * modulo 2 ** 64.
   */
  lemma PaddingMeaning(message: seq<Byte>)
    ensures var padded := Padded(message); var n := |padded|;
            && n % 64 == 0 && |message| + 9 <= n < |message| + 9 + 64
            && message + [0x80] <= padded && (forall i | |message| < i < n - 8 :: padded[i] == 0)
            && BigEndian(padded[n - 8..]) == 8 * |message| % 0x1_0000_0000_0000_0000
  {
    var padded := Padded(message);
    assert padded[|padded| - 8..] == LengthBytes(8 * |message|);
    LengthIsRead(8 * |message|, 8);
    assert LengthBytes(8 * |message|)[..8] == LengthBytes(8 * |message|);
    assert Power256(8) == 0x1_0000_0000_0000_0000 by {
      assert Power256(2) == 0x1_0000 && Power256(4) == 0x1_0000_0000 && Power256(6) == 0x1_0000_0000_0000;
    }
  }

  method Mark(message: seq<Byte>) returns (bytes: seq<Byte>)
    ensures bytes == Marked(message)
  {
    var marked := message + [0x80];
    bytes := marked;
    while |bytes| % 64 != 56
      invariant |marked| <= |bytes| <= |marked| + (55 - |message|) % 64
      invariant bytes == marked + Zeros(|bytes| - |marked|)
      decreases |marked| + (55 - |message|) % 64 - |bytes|
    {
      bytes := bytes + [0];
    }
    assert |bytes| - |marked| == (55 - |message|) % 64;
  }

  /** The padding part of `sha256Hex`. */
  method Pad(message: seq<Byte>) returns (bytes: seq<Byte>)
    ensures bytes == Padded(message)
  {
    var bitLength := 8 * |message|;
    bytes := Mark(message);
    for i := 0 to 8
      invariant bytes == Marked(message) + LengthBytes(bitLength)[..i]
    {
      bytes := bytes + [ShiftedByte(bitLength, 7 - i)];
    }
  }

  /** What is hashed tells data apart exactly up to the order of members. */
  lemma HashedBytesTellData(a: Json, b: Json, f: NumberFormat)
    requires IsNumberFormat(f) && IsPrintable(a, f) && IsPrintable(b, f) && IsWellFormed(a) && IsWellFormed(b)
    ensures Padded(Utf8(Printed(a, f))) == Padded(Utf8(Printed(b, f))) <==> SameData(a, b)
  {
    PaddingIsInjective(Utf8(Printed(a, f)), Utf8(Printed(b, f)));
    Utf8RoundTrip(Printed(a, f));
    Utf8RoundTrip(Printed(b, f));
    CanonicalTextTellsData(a, b, f);
  }
}
