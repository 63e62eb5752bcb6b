/** JSON data, and the registry's printer with sorted members. */
module JsonValues {
  import opened Prelude
  import opened JsonText

  /** A number of the language: all but negative zero and the infinite ones have a place in JSON. */
  datatype Number = Finite(value: real) | NegativeZero | NotFinite(name: string)

  datatype Field<+T> = Field(name: Text, value: T)

  /** A value as a program holds it: the members of an object in the order they were set, each name once. */
  datatype Json =
    | Null
    | Bool(value: bool)
    | Num(number: Number)
    | Str(text: Text)
    | Arr(items: seq<Json>)
    | Obj(members: seq<Field<Json>>)
    | NotData(kind: string)

  /** How the finite numbers of the language print, and read back. */
  datatype NumberFormat = NumberFormat(isNumber: real -> bool, print_: real -> Text, read: Text -> Option<real>)

  predicate IsNumberUnit(u: CodeUnit) {
    0x30 <= u <= 0x39 || u == 0x2D || u == 0x2B || u == 0x2E || u == 0x45 || u == 0x65
  }

  /** Different numbers print differently, in digits, signs, points and exponents. */
  ghost predicate IsNumberFormat(f: NumberFormat) {
    forall r {:trigger f.print_(r)} | f.isNumber(r) ::
      && f.print_(r) != [] && (forall u | u in f.print_(r) :: IsNumberUnit(u))
      && f.read(f.print_(r)) == Some(r)
  }

  // ------------------------------------------------------------------------ order

  /** The order of `Array.prototype.sort`: by code units. */
  predicate TextBefore(a: Text, b: Text) {
    b != [] && (a == [] || a[0] < b[0] || (a[0] == b[0] && TextBefore(a[1..], b[1..])))
  }

  lemma {:induction false} TextOrderIsTotal(a: Text, b: Text)
    ensures a == b || TextBefore(a, b) || TextBefore(b, a)
    ensures !(TextBefore(a, b) && TextBefore(b, a)) && !TextBefore(a, a)
  {
    if a != [] && b != [] && a[0] == b[0] {
      TextOrderIsTotal(a[1..], b[1..]);
      assert a == [a[0]] + a[1..] && b == [b[0]] + b[1..];
    }
    if a != [] {
      TextOrderIsTotal(a[1..], a[1..]);
    }
  }

  lemma {:induction false} TextOrderChains(a: Text, b: Text, c: Text)
    requires TextBefore(a, b) && TextBefore(b, c)
    ensures TextBefore(a, c)
  {
    if a != [] && a[0] == b[0] == c[0] {
      TextOrderChains(a[1..], b[1..], c[1..]);
    }
  }

  function InsertField<T>(field: Field<T>, sorted: seq<Field<T>>): (r: seq<Field<T>>)
    ensures |r| == |sorted| + 1
  {
    if sorted == [] || !TextBefore(sorted[0].name, field.name) then [field] + sorted
    else [sorted[0]] + InsertField(field, sorted[1..])
  }

  function SortFields<T>(s: seq<Field<T>>): (r: seq<Field<T>>)
    ensures |r| == |s|
  {
    if s == [] then [] else InsertField(s[0], SortFields(s[1..]))
  }

  // --------------------------------------------------------------------- printing

  predicate IsPrintable(v: Json, f: NumberFormat) {
    match v
    case Num(n) => n.Finite? && f.isNumber(n.value)
    case Arr(items) => forall i | 0 <= i < |items| :: IsPrintable(items[i], f)
    case Obj(members) => forall i | 0 <= i < |members| :: IsPrintable(members[i].value, f)
    case NotData(_) => false
    case _ => true
  }

  /** `Array.prototype.join` with commas. */
  function Join(texts: seq<Text>): Text {
    if texts == [] then [] else if |texts| == 1 then texts[0] else texts[0] + ([COMMA] + Join(texts[1..]))
  }

  function FieldText(field: Field<Text>): Text {
    Quoted(field.name) + ([COLON] + field.value)
  }

  function FieldTexts(fields: seq<Field<Text>>): (r: seq<Text>)
    ensures |r| == |fields| && forall i | 0 <= i < |r| :: r[i] == FieldText(fields[i])
  {
    seq(|fields|, i requires 0 <= i < |fields| => FieldText(fields[i]))
  }

  const NULL: Text := [0x6E, 0x75, 0x6C, 0x6C]
  const TRUE: Text := [0x74, 0x72, 0x75, 0x65]
  const FALSE: Text := [0x66, 0x61, 0x6C, 0x73, 0x65]

  function ScalarText(v: Json, f: NumberFormat): Text {
    match v
    case Null => NULL
    case Bool(b) => if b then TRUE else FALSE
    case Num(n) => if n.Finite? then f.print_(n.value) else []
    case Str(text) => Quoted(text)
    case _ => []
  }

  function Bracketed(open: CodeUnit, inside: Text, close: CodeUnit): Text {
    [open] + (inside + [close])
  }

  /** The text of a value with the members of objects in the order given. */
  function PlainText(v: Json, f: NumberFormat): Text {
    match v
    case Arr(items) => Bracketed(OPEN_BRACKET, Join(PlainItems(items, f)), CLOSE_BRACKET)
    case Obj(members) => Bracketed(OPEN_BRACE, Join(FieldTexts(PlainMembers(members, f))), CLOSE_BRACE)
    case _ => ScalarText(v, f)
  }

  function PlainItems(items: seq<Json>, f: NumberFormat): (r: seq<Text>)
    ensures |r| == |items|
  {
    if items == [] then [] else [PlainText(items[0], f)] + PlainItems(items[1..], f)
  }

  function PlainMembers(members: seq<Field<Json>>, f: NumberFormat): (r: seq<Field<Text>>)
    ensures |r| == |members|
  {
    if members == [] then [] else [Field(members[0].name, PlainText(members[0].value, f))] + PlainMembers(members[1..], f)
  }

  /** The same data with the members of every object set in the order of their names. */
  function SortValue(v: Json): Json {
    match v
    case Arr(items) => Arr(SortItems(items))
    case Obj(members) => Obj(SortFields(SortMembers(members)))
    case _ => v
  }

  function SortItems(items: seq<Json>): (r: seq<Json>)
    ensures |r| == |items|
  {
    if items == [] then [] else [SortValue(items[0])] + SortItems(items[1..])
  }

  function SortMembers(members: seq<Field<Json>>): (r: seq<Field<Json>>)
    ensures |r| == |members|
  {
    if members == [] then [] else [Field(members[0].name, SortValue(members[0].value))] + SortMembers(members[1..])
  }

  /** What the registry's `canonicalJson` prints: it sorts the members of each object as it comes to it. */
  function Printed(v: Json, f: NumberFormat): Text {
    match v
    case Arr(items) => Bracketed(OPEN_BRACKET, Join(PrintedItems(items, f)), CLOSE_BRACKET)
    case Obj(members) => Bracketed(OPEN_BRACE, Join(FieldTexts(SortFields(PrintedMembers(members, f)))), CLOSE_BRACE)
    case _ => ScalarText(v, f)
  }

  function PrintedItems(items: seq<Json>, f: NumberFormat): (r: seq<Text>)
    ensures |r| == |items|
  {
    if items == [] then [] else [Printed(items[0], f)] + PrintedItems(items[1..], f)
  }

  function PrintedMembers(members: seq<Field<Json>>, f: NumberFormat): (r: seq<Field<Text>>)
    ensures |r| == |members|
  {
    if members == [] then [] else [Field(members[0].name, Printed(members[0].value, f))] + PrintedMembers(members[1..], f)
  }

  /** The canonical text, refused where JSON has no place for a value. */
  function CanonicalText(v: Json, f: NumberFormat): Option<Text> {
    if IsPrintable(v, f) then Some(Printed(v, f)) else None
  }

  // ------------------------------------------------------- printing sorts, no more

  /** Sorting looks at names only. */
  lemma {:induction false} InsertingPrints(field: Field<Json>, sorted: seq<Field<Json>>, f: NumberFormat)
    ensures PlainMembers(InsertField(field, sorted), f)
            == InsertField(Field(field.name, PlainText(field.value, f)), PlainMembers(sorted, f))
  {
    if sorted == [] || !TextBefore(sorted[0].name, field.name) {
      assert ([field] + sorted)[1..] == sorted;
    } else {
      InsertingPrints(field, sorted[1..], f);
      assert ([sorted[0]] + InsertField(field, sorted[1..]))[1..] == InsertField(field, sorted[1..]);
      var printed := PlainMembers(sorted, f);
      assert printed[1..] == PlainMembers(sorted[1..], f);
    }
  }

  lemma {:induction false} SortingPrints(members: seq<Field<Json>>, f: NumberFormat)
    ensures PlainMembers(SortFields(members), f) == SortFields(PlainMembers(members, f))
  {
    if members != [] {
      SortingPrints(members[1..], f);
      InsertingPrints(members[0], SortFields(members[1..]), f);
      assert PlainMembers(members, f)[1..] == PlainMembers(members[1..], f);
    }
  }

  /** Sorting while printing gives the text of the sorted value. */
  lemma {:induction false} PrintingSorts(v: Json, f: NumberFormat)
    ensures Printed(v, f) == PlainText(SortValue(v), f)
  {
    match v {
      case Arr(items) => PrintingSortsItems(items, f);
      case Obj(members) =>
        PrintingSortsMembers(members, f);
        SortingPrints(SortMembers(members), f);
      case _ =>
    }
  }

  lemma {:induction false} PrintingSortsItems(items: seq<Json>, f: NumberFormat)
    ensures PrintedItems(items, f) == PlainItems(SortItems(items), f)
  {
    if items != [] {
      PrintingSorts(items[0], f);
      PrintingSortsItems(items[1..], f);
      assert SortItems(items)[1..] == SortItems(items[1..]);
    }
  }

  lemma {:induction false} PrintingSortsMembers(members: seq<Field<Json>>, f: NumberFormat)
    ensures PrintedMembers(members, f) == PlainMembers(SortMembers(members), f)
  {
    if members != [] {
      PrintingSorts(members[0].value, f);
      PrintingSortsMembers(members[1..], f);
      assert SortMembers(members)[1..] == SortMembers(members[1..]);
    }
  }
}
