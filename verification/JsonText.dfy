/** JSON strings as `JSON.stringify` writes them: the escapes of section 7 of RFC 8259, over UTF-16 code units. */
module JsonText {
  import opened Prelude

  newtype CodeUnit = x: int | 0 <= x < 0x1_0000

  type Text = seq<CodeUnit>

  const QUOTE: CodeUnit := 0x22
  const BACKSLASH: CodeUnit := 0x5C
  const COMMA: CodeUnit := 0x2C
  const COLON: CodeUnit := 0x3A
  const OPEN_BRACKET: CodeUnit := 0x5B
  const CLOSE_BRACKET: CodeUnit := 0x5D
  const OPEN_BRACE: CodeUnit := 0x7B
  const CLOSE_BRACE: CodeUnit := 0x7D

  predicate IsLead(u: CodeUnit) {
    0xD800 <= u <= 0xDBFF
  }

  predicate IsTrail(u: CodeUnit) {
    0xDC00 <= u <= 0xDFFF
  }

  predicate StartsPair(s: Text) {
    |s| >= 2 && IsLead(s[0]) && IsTrail(s[1])
  }

  function HexDigit(n: CodeUnit): (c: CodeUnit)
    requires n < 16
  {
    if n < 10 then 0x30 + n else 0x61 + (n - 10)
  }

  function HexValue(c: CodeUnit): Option<CodeUnit> {
    if 0x30 <= c <= 0x39 then Some(c - 0x30)
    else if 0x61 <= c <= 0x66 then Some(c - 0x61 + 10)
    else if 0x41 <= c <= 0x46 then Some(c - 0x41 + 10)
    else None
  }

  /** The letter of a two-character escape. */
  function EscapeLetter(u: CodeUnit): Option<CodeUnit> {
    if u == QUOTE then Some(QUOTE)
    else if u == BACKSLASH then Some(BACKSLASH)
    else if u == 0x08 then Some(0x62)
    else if u == 0x0C then Some(0x66)
    else if u == 0x0A then Some(0x6E)
    else if u == 0x0D then Some(0x72)
    else if u == 0x09 then Some(0x74)
    else None
  }

  function LetterMeaning(c: CodeUnit): Option<CodeUnit> {
    if c == QUOTE then Some(QUOTE)
    else if c == BACKSLASH then Some(BACKSLASH)
    else if c == 0x2F then Some(0x2F)
    else if c == 0x62 then Some(0x08)
    else if c == 0x66 then Some(0x0C)
    else if c == 0x6E then Some(0x0A)
    else if c == 0x72 then Some(0x0D)
    else if c == 0x74 then Some(0x09)
    else None
  }

  function HexEscape(u: CodeUnit): (r: Text)
    ensures |r| == 6
  {
    [BACKSLASH, 0x75, HexDigit(u / 0x1000), HexDigit(u / 0x100 % 16), HexDigit(u / 0x10 % 16), HexDigit(u % 16)]
  }

  /** Quotation mark, reverse solidus, controls and lone surrogates are escaped; all else stands for itself. */
  function EscapeUnit(u: CodeUnit): (r: Text)
    ensures r != []
  {
    if EscapeLetter(u).Some? then [BACKSLASH, EscapeLetter(u).value]
    else if u < 0x20 || IsLead(u) || IsTrail(u) then HexEscape(u)
    else [u]
  }

  function Escaped(s: Text): Text {
    if s == [] then []
    else if StartsPair(s) then [s[0], s[1]] + Escaped(s[2..])
    else EscapeUnit(s[0]) + Escaped(s[1..])
  }

  function Quoted(s: Text): Text {
    [QUOTE] + Escaped(s) + [QUOTE]
  }

  // ---------------------------------------------------------------------- reading

  /** The unit an escape or an unescaped character stands for, and how long that is. */
  function ReadUnit(s: Text): (r: Option<(CodeUnit, nat)>)
    ensures r.Some? ==> 0 < r.value.1 <= |s|
  {
    if s == [] || s[0] == QUOTE || s[0] < 0x20 then None
    else if s[0] != BACKSLASH then Some((s[0], 1))
    else if |s| < 2 then None
    else if s[1] != 0x75 then
      var meaning := LetterMeaning(s[1]);
      if meaning.None? then None else Some((meaning.value, 2))
    else if |s| < 6 then None
    else ReadHex(s)
  }

  function ReadHex(s: Text): (r: Option<(CodeUnit, nat)>)
    requires |s| >= 6
    ensures r.Some? ==> r.value.1 == 6
  {
    var a, b, c, d := HexValue(s[2]), HexValue(s[3]), HexValue(s[4]), HexValue(s[5]);
    if a.None? || b.None? || c.None? || d.None? then None
    else Some((a.value * 0x1000 + b.value * 0x100 + c.value * 0x10 + d.value, 6))
  }

  /** Reads up to the closing quotation mark. */
  function ReadString(s: Text): (r: Option<(Text, Text)>)
    ensures r.Some? ==> |r.value.1| < |s|
  {
    if s == [] then None
    else if s[0] == QUOTE then Some(([], s[1..]))
    else
      var unit := ReadUnit(s);
      if unit.None? then None
      else
        var rest := ReadString(s[unit.value.1..]);
        if rest.None? then None else Some(([unit.value.0] + rest.value.0, rest.value.1))
  }

  /** Four lower-case hexadecimal digits that say the unit. */
  ghost predicate SaysUnit(digits: Text, u: CodeUnit) {
    && |digits| == 4 && (forall d | d in digits :: 0x30 <= d <= 0x39 || 0x61 <= d <= 0x66)
    && DigitValue(digits[0]) * 0x1000 + DigitValue(digits[1]) * 0x100 + DigitValue(digits[2]) * 0x10 + DigitValue(digits[3]) == u as int
  }

  function DigitValue(d: CodeUnit): int {
    if d <= 0x39 then d as int - 0x30 else d as int - 0x57
  }

  /**
   * What is escaped, and how: the quotation mark, the backslash and five controls by a letter, other controls and lone
   * surrogates by number, and nothing else.
   */
  lemma EscapesAreMinimal(u: CodeUnit)
    ensures 0x20 <= u && u != 0x22 && u != 0x5C && !(0xD800 <= u <= 0xDFFF) <==> EscapeUnit(u) == [u]
    ensures EscapeUnit(0x22) == [0x5C, 0x22] && EscapeUnit(0x5C) == [0x5C, 0x5C] && EscapeUnit(0x08) == [0x5C, 0x62]
    ensures EscapeUnit(0x09) == [0x5C, 0x74] && EscapeUnit(0x0A) == [0x5C, 0x6E] && EscapeUnit(0x0C) == [0x5C, 0x66] && EscapeUnit(0x0D) == [0x5C, 0x72]
    ensures (0xD800 <= u <= 0xDFFF || u < 0x08 || u == 0x0B || 0x0E <= u < 0x20) ==>
              EscapeUnit(u)[..2] == [0x5C, 0x75] && SaysUnit(EscapeUnit(u)[2..], u)
  {
    var escaped := EscapeUnit(u);
    if 0xD800 <= u <= 0xDFFF || u < 0x08 || u == 0x0B || 0x0E <= u < 0x20 {
      assert escaped == HexEscape(u);
      FourDigits(u);
      assert forall n: CodeUnit | n < 16 :: DigitValue(HexDigit(n)) == n as int;
    }
  }

  lemma HexDigitRoundTrip(n: CodeUnit)
    requires n < 16
    ensures HexValue(HexDigit(n)) == Some(n)
  {
  }

  lemma FourDigits(u: CodeUnit)
    ensures u / 0x1000 < 16
    ensures u / 0x1000 * 0x1000 + u / 0x100 % 16 * 0x100 + u / 0x10 % 16 * 0x10 + u % 16 == u
  {
    var n := u as int;
    assert n / 0x100 == n / 0x1000 * 16 + n / 0x100 % 16;
    assert n / 0x10 == n / 0x100 * 16 + n / 0x10 % 16;
    assert n == n / 0x10 * 16 + n % 16;
  }

  lemma ReadHexOf(s: Text, a: CodeUnit, b: CodeUnit, c: CodeUnit, d: CodeUnit, u: CodeUnit)
    requires |s| >= 6 && a < 16 && b < 16 && c < 16 && d < 16
    requires s[2] == HexDigit(a) && s[3] == HexDigit(b) && s[4] == HexDigit(c) && s[5] == HexDigit(d)
    requires u == a * 0x1000 + b * 0x100 + c * 0x10 + d
    ensures ReadHex(s) == Some((u, 6))
  {
    HexDigitRoundTrip(a);
    HexDigitRoundTrip(b);
    HexDigitRoundTrip(c);
    HexDigitRoundTrip(d);
  }

  lemma HexRoundTrip(u: CodeUnit, rest: Text)
    ensures ReadUnit(HexEscape(u) + rest) == Some((u, 6))
  {
    var s := HexEscape(u) + rest;
    FourDigits(u);
    assert s[0] == BACKSLASH && s[1] == 0x75;
    ReadHexOf(s, u / 0x1000, u / 0x100 % 16, u / 0x10 % 16, u % 16, u);
  }

  lemma UnitRoundTrip(u: CodeUnit, rest: Text)
    ensures ReadUnit(EscapeUnit(u) + rest) == Some((u, |EscapeUnit(u)|))
    ensures EscapeUnit(u)[0] != QUOTE
  {
    if EscapeLetter(u).None? && (u < 0x20 || IsLead(u) || IsTrail(u)) {
      HexRoundTrip(u, rest);
    }
  }

  /** One more unit before what reads as `tail`. */
  lemma ReadStep(u: CodeUnit, rest: Text)
    requires ReadString(rest).Some?
    ensures ReadString(EscapeUnit(u) + rest) == Some(([u] + ReadString(rest).value.0, ReadString(rest).value.1))
    ensures !(u < 0x20 || u == QUOTE || u == BACKSLASH) ==>
              ReadString([u] + rest) == Some(([u] + ReadString(rest).value.0, ReadString(rest).value.1))
  {
    UnitRoundTrip(u, rest);
    var s := EscapeUnit(u) + rest;
    assert s[0] == EscapeUnit(u)[0];
    assert s[|EscapeUnit(u)|..] == rest;
    assert ([u] + rest)[1..] == rest;
  }

  lemma Regroup<T>(a: seq<T>, b: seq<T>, c: seq<T>)
    ensures (a + b) + c == a + (b + c)
  {
  }

  lemma PairForm(s: Text, end: Text)
    requires StartsPair(s)
    ensures Escaped(s) + end == [s[0]] + ([s[1]] + (Escaped(s[2..]) + end))
  {
    Regroup([s[0], s[1]], Escaped(s[2..]), end);
  }

  lemma UnitForm(s: Text, end: Text)
    requires s != [] && !StartsPair(s)
    ensures Escaped(s) + end == EscapeUnit(s[0]) + (Escaped(s[1..]) + end)
  {
    Regroup(EscapeUnit(s[0]), Escaped(s[1..]), end);
  }

  /** Reading `s` gives `value` and leaves `rest`. */
  predicate Reads(s: Text, value: Text, rest: Text) {
    ReadString(s) == Some((value, rest))
  }

  lemma ReadUnitStep(u: CodeUnit, s: Text, value: Text, rest: Text)
    requires Reads(s, value, rest)
    ensures Reads(EscapeUnit(u) + s, [u] + value, rest)
  {
    ReadStep(u, s);
  }

  lemma ReadPairStep(lead: CodeUnit, trail: CodeUnit, s: Text, value: Text, rest: Text)
    requires Reads(s, value, rest) && IsLead(lead) && IsTrail(trail)
    ensures Reads([lead] + ([trail] + s), [lead] + ([trail] + value), rest)
  {
    ReadStep(trail, s);
    ReadStep(lead, [trail] + s);
  }

  lemma PairIsRead(s: Text, rest: Text)
    requires StartsPair(s) && Reads(Escaped(s[2..]) + ([QUOTE] + rest), s[2..], rest)
    ensures Reads(Escaped(s) + ([QUOTE] + rest), s, rest)
  {
    PairForm(s, [QUOTE] + rest);
    ReadPairStep(s[0], s[1], Escaped(s[2..]) + ([QUOTE] + rest), s[2..], rest);
    assert s == [s[0]] + ([s[1]] + s[2..]);
  }

  lemma UnitIsRead(s: Text, rest: Text)
    requires s != [] && !StartsPair(s) && Reads(Escaped(s[1..]) + ([QUOTE] + rest), s[1..], rest)
    ensures Reads(Escaped(s) + ([QUOTE] + rest), s, rest)
  {
    UnitForm(s, [QUOTE] + rest);
    ReadUnitStep(s[0], Escaped(s[1..]) + ([QUOTE] + rest), s[1..], rest);
    assert s == [s[0]] + s[1..];
  }

  /** Reading what was written gives every string back, lone surrogates included. */
  lemma {:induction false} StringRoundTrip(s: Text, rest: Text)
    ensures Reads(Escaped(s) + ([QUOTE] + rest), s, rest)
  {
    if s == [] {
      assert Escaped(s) + ([QUOTE] + rest) == [QUOTE] + rest && ([QUOTE] + rest)[1..] == rest;
    } else if StartsPair(s) {
      StringRoundTrip(s[2..], rest);
      PairIsRead(s, rest);
    } else {
      StringRoundTrip(s[1..], rest);
      UnitIsRead(s, rest);
    }
  }
}
