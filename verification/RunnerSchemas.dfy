/** `decodeRunnerValueSchema`: which JSON data is a schema, and what its bounds are worth. */
module RunnerSchemas {
  import opened Prelude
  import opened JsonText
  import opened JsonValues
  import opened CanonicalJson
  import opened RunnerValues
  import opened RunnerDecoding

  const MAX_SCHEMA_DEPTH := 32
  const MAX_SCHEMA_PROPERTIES := 256
  const MAX_RUNNER_COLLECTION_ITEMS := 10_000
  const MAX_RUNNER_STRING_LENGTH := 1_000_000

  function Ascii(s: string): (r: Text)
    requires forall i | 0 <= i < |s| :: s[i] < 128 as char
    ensures |r| == |s| && forall i | 0 <= i < |r| :: r[i] as int == s[i] as int
  {
    seq(|s|, i requires 0 <= i < |s| => s[i] as int as CodeUnit)
  }

  // ----------------------------------------------------------------------- records

  /** The value of a member, if the record has it. */
  function Get(members: seq<Field<Json>>, name: Text): Option<Json> {
    var found := Lookup(members, name);
    if found.None? then None else Some(found.value.value)
  }

  /** `exactRecord`: these keys, and no others. */
  predicate HasExactly(members: seq<Field<Json>>, names: seq<Text>) {
    && (forall m | m in members :: m.name in names)
    && forall name | name in names :: Get(members, name).Some?
  }

  /** A non-negative safe integer, and one at least that and within a limit. */
  function Bounds(minimum: Option<Json>, maximum: Option<Json>, limit: int): (r: Option<(nat, nat)>)
    ensures r.Some? ==> r.value.0 <= r.value.1 <= limit
  {
    if minimum.None? || maximum.None? then None
    else
      var low, high := SafeInteger(minimum.value), SafeInteger(maximum.value);
      if low.None? || low.value < 0 then None
      else if high.None? || high.value < low.value || high.value > limit then None
      else Some((low.value, high.value))
  }

  predicate IsLetter(u: CodeUnit) {
    0x41 <= u <= 0x5A || 0x61 <= u <= 0x7A
  }

  /** `[A-Za-z_][A-Za-z0-9_.-]{0,127}`. */
  predicate IsPropertyKey(name: Text) {
    && 1 <= |name| <= 128 && (IsLetter(name[0]) || name[0] == 0x5F)
    && forall i | 0 < i < |name| :: IsLetter(name[i]) || 0x30 <= name[i] <= 0x39 || name[i] == 0x5F || name[i] == 0x2E || name[i] == 0x2D
  }

  /** Letters, digits, underscores, dots and dashes, at most 128 of them; the first is no digit, dot or dash. */
  lemma PropertyKeyMeaning(name: Text)
    ensures IsPropertyKey(name) <==>
            && 1 <= |name| <= 128
            && (forall u | u in name :: 0x41 <= u <= 0x5A || 0x61 <= u <= 0x7A || 0x30 <= u <= 0x39 || u == 0x5F || u == 0x2E || u == 0x2D)
            && !(0x30 <= name[0] <= 0x39) && name[0] != 0x2E && name[0] != 0x2D
  {
    assert forall i | 0 <= i < |name| :: name[i] in name;
  }

  /** A list of unique strings. */
  function StringList(v: Option<Json>): (r: Option<seq<Text>>)
    ensures r.Some? ==> Distinct(r.value)
  {
    if v.None? || !v.value.Arr? then None
    else
      var items := v.value.items;
      if !forall i | 0 <= i < |items| :: items[i].Str? then None
      else
        var texts := seq(|items|, i requires 0 <= i < |items| => items[i].text);
        if Distinct(texts) then Some(texts) else None
  }

  function AsFields(texts: seq<Text>): (r: seq<Field<()>>)
    ensures |r| == |texts| && forall i | 0 <= i < |r| :: r[i] == Field(texts[i], ())
  {
    seq(|texts|, i requires 0 <= i < |texts| => Field(texts[i], ()))
  }

  function NamesOf<T>(fields: seq<Field<T>>): (r: seq<Text>)
    ensures |r| == |fields| && forall i | 0 <= i < |r| :: r[i] == fields[i].name
  {
    seq(|fields|, i requires 0 <= i < |fields| => fields[i].name)
  }

  function SortTexts(texts: seq<Text>): seq<Text> {
    NamesOf(SortFields(AsFields(texts)))
  }

  const TYPE := Ascii("type")
  const PROPERTIES := Ascii("properties")
  const REQUIRED := Ascii("required")
  const ADDITIONAL := Ascii("additionalProperties")
  const ITEMS := Ascii("items")
  const MIN_ITEMS := Ascii("minItems")
  const MAX_ITEMS := Ascii("maxItems")
  const UNIQUE_ITEMS := Ascii("uniqueItems")
  const ORDER_FIELD := Ascii("orderField")
  const START_AT := Ascii("startAt")
  const MIN_LENGTH := Ascii("minLength")
  const MAX_LENGTH := Ascii("maxLength")
  const VALUES := Ascii("values")
  const MINIMUM := Ascii("minimum")
  const MAXIMUM := Ascii("maximum")

  // ---------------------------------------------------------------------- decoding

  function DecodeScalar(kind: Text, m: seq<Field<Json>>): Option<Schema> {
    if kind == Ascii("string") then
      if !HasExactly(m, [TYPE, MIN_LENGTH, MAX_LENGTH]) then None
      else
        var bounds := Bounds(Get(m, MIN_LENGTH), Get(m, MAX_LENGTH), MAX_RUNNER_STRING_LENGTH);
        if bounds.None? then None else Some(StringSchema(bounds.value.0, bounds.value.1))
    else if kind == Ascii("string_enum") then
      if !HasExactly(m, [TYPE, VALUES]) then None
      else
        var values := StringList(Get(m, VALUES));
        if values.None? || values.value == [] then None else Some(EnumSchema(values.value))
    else if kind == Ascii("integer") then
      if !HasExactly(m, [TYPE, MINIMUM, MAXIMUM]) then None
      else
        var low, high := Get(m, MINIMUM).value, Get(m, MAXIMUM).value;
        if low == Num(NegativeZero) || high == Num(NegativeZero) || SafeInteger(low).None? || SafeInteger(high).None? then None
        else if SafeInteger(high).value < SafeInteger(low).value then None
        else Some(IntegerSchema(SafeInteger(low).value, SafeInteger(high).value))
    else if kind == Ascii("number") then
      if !HasExactly(m, [TYPE, MINIMUM, MAXIMUM]) then None
      else
        var low, high := Get(m, MINIMUM).value, Get(m, MAXIMUM).value;
        if !low.Num? || !low.number.Finite? || !high.Num? || !high.number.Finite? || high.number.value < low.number.value then None
        else Some(NumberSchema(low.number.value, high.number.value))
    else if kind == Ascii("boolean") then (if HasExactly(m, [TYPE]) then Some(BooleanSchema) else None)
    else if kind == Ascii("null") then (if HasExactly(m, [TYPE]) then Some(NullSchema) else None)
    else None
  }

  /** The order field must be a required integer whose bounds have room for every order. */
  predicate OrderFits(items: Schema, maxItems: nat, orderField: Text, startAt: int) {
    && items.ObjectSchema? && IsPropertyKey(orderField)
    && var order := Lookup(items.properties, orderField);
    && order.Some? && order.value.value.IntegerSchema? && orderField in items.required
    && (maxItems > 0 ==>
          && startAt + maxItems - 1 <= MAX_SAFE_INTEGER
          && order.value.value.minimum <= startAt && startAt + maxItems - 1 <= order.value.value.maximum)
  }

  function ObjectFrom(m: seq<Field<Json>>, properties: Option<seq<Field<Schema>>>): Option<Schema> {
    if !HasExactly(m, [TYPE, PROPERTIES, REQUIRED, ADDITIONAL]) || Get(m, ADDITIONAL) != Some(Bool(false)) then None
    else
      var required := StringList(Get(m, REQUIRED));
      if properties.None? || |properties.value| > MAX_SCHEMA_PROPERTIES || required.None? then None
      else if !forall name | name in required.value :: Lookup(properties.value, name).Some? then None
      else Some(ObjectSchema(properties.value, SortTexts(required.value)))
  }

  function ArrayFrom(m: seq<Field<Json>>, items: Option<Schema>): Option<Schema> {
    if !HasExactly(m, [TYPE, ITEMS, MIN_ITEMS, MAX_ITEMS, UNIQUE_ITEMS]) then None
    else
      var bounds, unique := Bounds(Get(m, MIN_ITEMS), Get(m, MAX_ITEMS), MAX_RUNNER_COLLECTION_ITEMS), Get(m, UNIQUE_ITEMS);
      if items.None? || bounds.None? || unique.None? || !unique.value.Bool? then None
      else Some(ArraySchema(items.value, bounds.value.0, bounds.value.1, unique.value.value))
  }

  function OrderedArrayFrom(m: seq<Field<Json>>, items: Option<Schema>): Option<Schema> {
    if !HasExactly(m, [TYPE, ITEMS, MIN_ITEMS, MAX_ITEMS, ORDER_FIELD, START_AT]) then None
    else
      var bounds := Bounds(Get(m, MIN_ITEMS), Get(m, MAX_ITEMS), MAX_RUNNER_COLLECTION_ITEMS);
      var orderField, start := Get(m, ORDER_FIELD), Get(m, START_AT);
      if items.None? || bounds.None? || orderField.None? || !orderField.value.Str? || start.None? then None
      else
        var startAt := SafeInteger(start.value);
        if startAt.None? || !OrderFits(items.value, bounds.value.1, orderField.value.text, startAt.value) then None
        else Some(OrderedArraySchema(items.value, bounds.value.0, bounds.value.1, orderField.value.text, startAt.value))
  }

  function DecodeSchema(v: Json, depth: nat): Option<Schema>
    decreases MAX_SCHEMA_DEPTH + 1 - depth, 0
  {
    if depth > MAX_SCHEMA_DEPTH || !v.Obj? then None
    else
      var m := v.members;
      var kind := Get(m, TYPE);
      if kind.None? || !kind.value.Str? then None
      else if kind.value.text == Ascii("object") then
        var properties := Get(m, PROPERTIES);
        if properties.None? || !properties.value.Obj? then None
        else ObjectFrom(m, DecodeProperties(SortFields(properties.value.members), depth + 1))
      else if kind.value.text == Ascii("array") || kind.value.text == Ascii("contiguous_ordered_array") then
        var items := Get(m, ITEMS);
        if items.None? then None
        else if kind.value.text == Ascii("array") then ArrayFrom(m, DecodeSchema(items.value, depth + 1))
        else OrderedArrayFrom(m, DecodeSchema(items.value, depth + 1))
      else DecodeScalar(kind.value.text, m)
  }

  function DecodeProperties(members: seq<Field<Json>>, depth: nat): (r: Option<seq<Field<Schema>>>)
    ensures r.Some? ==> |r.value| == |members| && forall i | 0 <= i < |members| :: r.value[i].name == members[i].name
    decreases MAX_SCHEMA_DEPTH + 1 - depth, 1, |members|
  {
    if members == [] then Some([])
    else if !IsPropertyKey(members[0].name) then None
    else
      var first := DecodeSchema(members[0].value, depth);
      var rest := DecodeProperties(members[1..], depth);
      if first.None? || rest.None? then None else Some([Field(members[0].name, first.value)] + rest.value)
  }

  // ------------------------------------------------------------------- what is accepted

  /** The schemas there are at a depth. */
  predicate IsAccepted(s: Schema, depth: nat) {
    depth <= 32 &&
    match s
    case ObjectSchema(properties, required) =>
      && |properties| <= 256 && Ascends(properties)
      && (forall i | 0 <= i < |properties| :: IsPropertyKey(properties[i].name) && IsAccepted(properties[i].value, depth + 1))
      && Distinct(required) && SortTexts(required) == required
      && forall name | name in required :: Lookup(properties, name).Some?
    case ArraySchema(items, minItems, maxItems, _) =>
      IsAccepted(items, depth + 1) && minItems <= maxItems <= 10_000
    case OrderedArraySchema(items, minItems, maxItems, orderField, startAt) =>
      && IsAccepted(items, depth + 1) && minItems <= maxItems <= 10_000
      && -MAX_SAFE_INTEGER <= startAt <= MAX_SAFE_INTEGER && OrderFits(items, maxItems, orderField, startAt)
    case StringSchema(minLength, maxLength) => minLength <= maxLength <= 1_000_000
    case EnumSchema(values) => values != [] && Distinct(values)
    case IntegerSchema(minimum, maximum) => -MAX_SAFE_INTEGER <= minimum <= maximum <= MAX_SAFE_INTEGER
    case NumberSchema(low, high) => low <= high
    case BooleanSchema => true
    case NullSchema => true
  }

  lemma MemberIsWellFormed(members: seq<Field<Json>>, name: Text)
    requires IsWellFormed(Obj(members)) && Get(members, name).Some?
    ensures IsWellFormed(Get(members, name).value)
  {
    var found := Lookup(members, name).value;
    var i :| 0 <= i < |members| && members[i] == found;
  }

  lemma ScalarIsAccepted(kind: Text, m: seq<Field<Json>>, depth: nat)
    requires DecodeScalar(kind, m).Some? && depth <= MAX_SCHEMA_DEPTH
    ensures IsAccepted(DecodeScalar(kind, m).value, depth)
  {
  }

  lemma NamesAndBack(fields: seq<Field<()>>)
    ensures AsFields(NamesOf(fields)) == fields
  {
    forall i | 0 <= i < |fields| ensures AsFields(NamesOf(fields))[i] == fields[i] {
      assert fields[i].value == ();
    }
  }

  lemma SortedTextIn(texts: seq<Text>, text: Text)
    ensures text in SortTexts(texts) <==> text in texts
  {
    var fields := AsFields(texts);
    SortMembersSame(fields, Field(text, ()));
    NamesAndBack(fields);
    NamesAndBack(SortFields(fields));
    NameIn(fields, text);
    NameIn(SortFields(fields), text);
    assert NamesOf(fields) == texts;
  }

  lemma NameIn(fields: seq<Field<()>>, text: Text)
    ensures text in NamesOf(fields) <==> Field(text, ()) in fields
  {
    NamesAndBack(fields);
    if text in NamesOf(fields) {
      var i :| 0 <= i < |fields| && NamesOf(fields)[i] == text;
      assert AsFields(NamesOf(fields))[i] == Field(text, ());
    }
    if Field(text, ()) in fields {
      var i :| 0 <= i < |fields| && fields[i] == Field(text, ());
      assert NamesOf(fields)[i] == text;
    }
  }

  lemma SortedTexts(texts: seq<Text>)
    requires Distinct(texts)
    ensures Distinct(SortTexts(texts)) && SortTexts(SortTexts(texts)) == SortTexts(texts)
  {
    var sorted := SortFields(AsFields(texts));
    var once := SortTexts(texts);
    SortAscends(AsFields(texts));
    forall i, j | 0 <= i < j < |once| ensures once[i] != once[j] {
      assert TextBefore(sorted[i].name, sorted[j].name);
      TextOrderIsTotal(once[i], once[j]);
    }
    NamesAndBack(sorted);
    SortedStays(sorted);
  }

  lemma ObjectIsAccepted(m: seq<Field<Json>>, properties: seq<Field<Schema>>, depth: nat)
    requires depth <= MAX_SCHEMA_DEPTH && ObjectFrom(m, Some(properties)).Some? && Ascends(properties)
    requires forall i | 0 <= i < |properties| :: IsPropertyKey(properties[i].name) && IsAccepted(properties[i].value, depth + 1)
    ensures IsAccepted(ObjectFrom(m, Some(properties)).value, depth)
  {
    var required := StringList(Get(m, REQUIRED)).value;
    SortedTexts(required);
    forall name | name in SortTexts(required) ensures name in required {
      SortedTextIn(required, name);
    }
  }

  lemma ArrayIsAccepted(m: seq<Field<Json>>, items: Schema, depth: nat)
    requires depth <= MAX_SCHEMA_DEPTH && IsAccepted(items, depth + 1)
    ensures ArrayFrom(m, Some(items)).Some? ==> IsAccepted(ArrayFrom(m, Some(items)).value, depth)
    ensures OrderedArrayFrom(m, Some(items)).Some? ==> IsAccepted(OrderedArrayFrom(m, Some(items)).value, depth)
  {
  }

  /** Whatever decodes is a schema. */
  lemma {:induction false} SchemaIsAccepted(v: Json, depth: nat)
    requires IsWellFormed(v) && DecodeSchema(v, depth).Some?
    ensures IsAccepted(DecodeSchema(v, depth).value, depth)
    decreases MAX_SCHEMA_DEPTH + 1 - depth, 0
  {
    var m := v.members;
    var kind := Get(m, TYPE).value.text;
    if kind == Ascii("object") {
      MemberIsWellFormed(m, PROPERTIES);
      var members := Get(m, PROPERTIES).value.members;
      SortedWellFormed(members);
      SortAscends(members);
      PropertiesAreAccepted(SortFields(members), depth + 1);
      ObjectIsAccepted(m, DecodeProperties(SortFields(members), depth + 1).value, depth);
    } else if kind == Ascii("array") || kind == Ascii("contiguous_ordered_array") {
      MemberIsWellFormed(m, ITEMS);
      SchemaIsAccepted(Get(m, ITEMS).value, depth + 1);
      ArrayIsAccepted(m, DecodeSchema(Get(m, ITEMS).value, depth + 1).value, depth);
    } else {
      ScalarIsAccepted(kind, m, depth);
    }
  }

  lemma {:induction false} PropertiesAreAccepted(members: seq<Field<Json>>, depth: nat)
    requires DecodeProperties(members, depth).Some? && forall i | 0 <= i < |members| :: IsWellFormed(members[i].value)
    ensures var r := DecodeProperties(members, depth).value;
            forall i | 0 <= i < |members| :: IsPropertyKey(r[i].name) && IsAccepted(r[i].value, depth)
    decreases MAX_SCHEMA_DEPTH + 1 - depth, 1, |members|
  {
    if members != [] {
      SchemaIsAccepted(members[0].value, depth);
      PropertiesAreAccepted(members[1..], depth);
    }
  }

  // ---------------------------------------------------------------- and nothing else is

  function Whole(n: int): Json {
    Num(Finite(n as real))
  }

  function Strings(texts: seq<Text>): Json {
    Arr(seq(|texts|, i requires 0 <= i < |texts| => Str(texts[i])))
  }

  /** The data that describes a schema. */
  function EncodeSchema(s: Schema): Json {
    match s
    case ObjectSchema(properties, required) =>
      Obj([Field(TYPE, Str(Ascii("object"))), Field(PROPERTIES, Obj(EncodeProperties(properties))),
           Field(REQUIRED, Strings(required)), Field(ADDITIONAL, Bool(false))])
    case ArraySchema(items, minItems, maxItems, uniqueItems) =>
      Obj([Field(TYPE, Str(Ascii("array"))), Field(ITEMS, EncodeSchema(items)), Field(MIN_ITEMS, Whole(minItems)),
           Field(MAX_ITEMS, Whole(maxItems)), Field(UNIQUE_ITEMS, Bool(uniqueItems))])
    case OrderedArraySchema(items, minItems, maxItems, orderField, startAt) =>
      Obj([Field(TYPE, Str(Ascii("contiguous_ordered_array"))), Field(ITEMS, EncodeSchema(items)), Field(MIN_ITEMS, Whole(minItems)),
           Field(MAX_ITEMS, Whole(maxItems)), Field(ORDER_FIELD, Str(orderField)), Field(START_AT, Whole(startAt))])
    case StringSchema(minLength, maxLength) =>
      Obj([Field(TYPE, Str(Ascii("string"))), Field(MIN_LENGTH, Whole(minLength)), Field(MAX_LENGTH, Whole(maxLength))])
    case EnumSchema(values) => Obj([Field(TYPE, Str(Ascii("string_enum"))), Field(VALUES, Strings(values))])
    case IntegerSchema(minimum, maximum) =>
      Obj([Field(TYPE, Str(Ascii("integer"))), Field(MINIMUM, Whole(minimum)), Field(MAXIMUM, Whole(maximum))])
    case NumberSchema(low, high) =>
      Obj([Field(TYPE, Str(Ascii("number"))), Field(MINIMUM, Num(Finite(low))), Field(MAXIMUM, Num(Finite(high)))])
    case BooleanSchema => Obj([Field(TYPE, Str(Ascii("boolean")))])
    case NullSchema => Obj([Field(TYPE, Str(Ascii("null")))])
  }

  function EncodeProperties(properties: seq<Field<Schema>>): (r: seq<Field<Json>>)
    ensures |r| == |properties| && forall i | 0 <= i < |r| :: r[i].name == properties[i].name
  {
    if properties == [] then [] else [Field(properties[0].name, EncodeSchema(properties[0].value))] + EncodeProperties(properties[1..])
  }

  lemma GetAt(m: seq<Field<Json>>, i: nat)
    requires DistinctNames(m) && i < |m|
    ensures Get(m, m[i].name) == Some(m[i].value)
  {
    assert m[i] in m;
  }

  /** A record written with these names in this order has exactly them. */
  lemma ExactRecord(m: seq<Field<Json>>, names: seq<Text>)
    requires NamesOf(m) == names && Distinct(names)
    ensures HasExactly(m, names) && forall i | 0 <= i < |m| :: Get(m, names[i]) == Some(m[i].value)
  {
    forall i | 0 <= i < |m| ensures Get(m, names[i]) == Some(m[i].value) && m[i].name in names {
      assert NamesOf(m)[i] == m[i].name;
      GetAt(m, i);
    }
  }

  lemma KeysDiffer()
    ensures Distinct([TYPE, PROPERTIES, REQUIRED, ADDITIONAL])
    ensures Distinct([TYPE, ITEMS, MIN_ITEMS, MAX_ITEMS, UNIQUE_ITEMS])
    ensures Distinct([TYPE, ITEMS, MIN_ITEMS, MAX_ITEMS, ORDER_FIELD, START_AT])
    ensures Distinct([TYPE, MIN_LENGTH, MAX_LENGTH]) && Distinct([TYPE, VALUES]) && Distinct([TYPE, MINIMUM, MAXIMUM]) && Distinct([TYPE])
  {
    assert MIN_ITEMS[1] == 0x69 && MAX_ITEMS[1] == 0x61;
    assert MIN_LENGTH[1] == 0x69 && MAX_LENGTH[1] == 0x61;
    assert MINIMUM[1] == 0x69 && MAXIMUM[1] == 0x61;
  }

  /** Kinds differ in length or in the first letter. */
  lemma KindsDiffer()
    ensures |Ascii("object")| == 6 && Ascii("object")[0] == 0x6F
    ensures |Ascii("array")| == 5 && Ascii("array")[0] == 0x61
    ensures |Ascii("contiguous_ordered_array")| == 24 && Ascii("contiguous_ordered_array")[0] == 0x63
    ensures |Ascii("string")| == 6 && Ascii("string")[0] == 0x73
    ensures |Ascii("string_enum")| == 11 && Ascii("string_enum")[0] == 0x73
    ensures |Ascii("integer")| == 7 && Ascii("integer")[0] == 0x69
    ensures |Ascii("number")| == 6 && Ascii("number")[0] == 0x6E
    ensures |Ascii("boolean")| == 7 && Ascii("boolean")[0] == 0x62
    ensures |Ascii("null")| == 4 && Ascii("null")[0] == 0x6E
  {
  }

  lemma StringsAreListed(texts: seq<Text>)
    requires Distinct(texts)
    ensures StringList(Some(Strings(texts))) == Some(texts)
  {
    var items := Strings(texts).items;
    assert seq(|items|, i requires 0 <= i < |items| => items[i].text) == texts;
  }

  lemma WholeIsRead(n: int)
    requires -MAX_SAFE_INTEGER <= n <= MAX_SAFE_INTEGER
    ensures SafeInteger(Whole(n)) == Some(n)
  {
    assert (n as real).Floor == n;
  }

  lemma BoundsAreRead(low: nat, high: nat, limit: int)
    requires low <= high <= limit <= MAX_SAFE_INTEGER
    ensures Bounds(Some(Whole(low)), Some(Whole(high)), limit) == Some((low, high))
  {
    WholeIsRead(low);
    WholeIsRead(high);
  }

  lemma NumbersRoundTrip(s: Schema, depth: nat)
    requires IsAccepted(s, depth) && (s.IntegerSchema? || s.NumberSchema?)
    ensures DecodeScalar(EncodeSchema(s).members[0].value.text, EncodeSchema(s).members) == Some(s)
  {
    KeysDiffer();
    KindsDiffer();
    var m := EncodeSchema(s).members;
    var names := [TYPE, MINIMUM, MAXIMUM];
    ExactRecord(m, names);
    assert Get(m, names[1]) == Some(m[1].value) && Get(m, names[2]) == Some(m[2].value);
    if s.IntegerSchema? {
      WholeIsRead(s.minimum);
      WholeIsRead(s.maximum);
    }
  }

  lemma TextsRoundTrip(s: Schema, depth: nat)
    requires IsAccepted(s, depth) && (s.StringSchema? || s.EnumSchema? || s.BooleanSchema? || s.NullSchema?)
    ensures DecodeScalar(EncodeSchema(s).members[0].value.text, EncodeSchema(s).members) == Some(s)
  {
    KeysDiffer();
    KindsDiffer();
    var m := EncodeSchema(s).members;
    if s.StringSchema? {
      var names := [TYPE, MIN_LENGTH, MAX_LENGTH];
      ExactRecord(m, names);
      assert Get(m, names[1]) == Some(m[1].value) && Get(m, names[2]) == Some(m[2].value);
      BoundsAreRead(s.minLength, s.maxLength, MAX_RUNNER_STRING_LENGTH);
    } else if s.EnumSchema? {
      var names := [TYPE, VALUES];
      ExactRecord(m, names);
      assert Get(m, names[1]) == Some(m[1].value);
      StringsAreListed(s.values);
    } else {
      ExactRecord(m, [TYPE]);
    }
  }

  lemma ArrayRoundTrip(s: Schema, depth: nat)
    requires IsAccepted(s, depth) && s.ArraySchema?
    ensures ArrayFrom(EncodeSchema(s).members, Some(s.items)) == Some(s)
    ensures Get(EncodeSchema(s).members, ITEMS) == Some(EncodeSchema(s.items))
  {
    KeysDiffer();
    var m := EncodeSchema(s).members;
    var names := [TYPE, ITEMS, MIN_ITEMS, MAX_ITEMS, UNIQUE_ITEMS];
    ExactRecord(m, names);
    assert Get(m, names[1]) == Some(m[1].value) && Get(m, names[2]) == Some(m[2].value);
    assert Get(m, names[3]) == Some(m[3].value) && Get(m, names[4]) == Some(m[4].value);
    BoundsAreRead(s.minItems, s.maxItems, MAX_RUNNER_COLLECTION_ITEMS);
  }

  lemma OrderedArrayRoundTrip(s: Schema, depth: nat)
    requires IsAccepted(s, depth) && s.OrderedArraySchema?
    ensures OrderedArrayFrom(EncodeSchema(s).members, Some(s.items)) == Some(s)
    ensures Get(EncodeSchema(s).members, ITEMS) == Some(EncodeSchema(s.items))
  {
    KeysDiffer();
    var m := EncodeSchema(s).members;
    var names := [TYPE, ITEMS, MIN_ITEMS, MAX_ITEMS, ORDER_FIELD, START_AT];
    ExactRecord(m, names);
    assert Get(m, names[1]) == Some(m[1].value) && Get(m, names[2]) == Some(m[2].value) && Get(m, names[3]) == Some(m[3].value);
    assert Get(m, names[4]) == Some(m[4].value) && Get(m, names[5]) == Some(m[5].value);
    BoundsAreRead(s.minItems, s.maxItems, MAX_RUNNER_COLLECTION_ITEMS);
    WholeIsRead(s.startAt);
  }

  lemma ObjectRoundTrip(s: Schema, depth: nat)
    requires IsAccepted(s, depth) && s.ObjectSchema?
    ensures ObjectFrom(EncodeSchema(s).members, Some(s.properties)) == Some(s)
    ensures Get(EncodeSchema(s).members, PROPERTIES) == Some(Obj(EncodeProperties(s.properties)))
    ensures SortFields(EncodeProperties(s.properties)) == EncodeProperties(s.properties)
  {
    KeysDiffer();
    var m := EncodeSchema(s).members;
    var names := [TYPE, PROPERTIES, REQUIRED, ADDITIONAL];
    ExactRecord(m, names);
    assert Get(m, names[1]) == Some(m[1].value) && Get(m, names[2]) == Some(m[2].value) && Get(m, names[3]) == Some(m[3].value);
    StringsAreListed(s.required);
    SortedStays(EncodeProperties(s.properties));
  }

  lemma KindIsRead(s: Schema)
    ensures EncodeSchema(s).Obj? && EncodeSchema(s).members[0].value.Str?
    ensures Get(EncodeSchema(s).members, TYPE) == Some(EncodeSchema(s).members[0].value)
  {
    KeysDiffer();
  }

  lemma ArrayRecordDecodes(m: seq<Field<Json>>, items: Json, depth: nat)
    requires depth <= MAX_SCHEMA_DEPTH && Get(m, ITEMS) == Some(items)
    ensures Get(m, TYPE) == Some(Str(Ascii("array"))) ==> DecodeSchema(Obj(m), depth) == ArrayFrom(m, DecodeSchema(items, depth + 1))
    ensures Get(m, TYPE) == Some(Str(Ascii("contiguous_ordered_array"))) ==>
              DecodeSchema(Obj(m), depth) == OrderedArrayFrom(m, DecodeSchema(items, depth + 1))
  {
    KindsDiffer();
  }

  lemma ObjectRecordDecodes(m: seq<Field<Json>>, properties: seq<Field<Json>>, depth: nat)
    requires depth <= MAX_SCHEMA_DEPTH && Get(m, PROPERTIES) == Some(Obj(properties)) && Get(m, TYPE) == Some(Str(Ascii("object")))
    ensures DecodeSchema(Obj(m), depth) == ObjectFrom(m, DecodeProperties(SortFields(properties), depth + 1))
  {
  }

  lemma ArrayDecodes(s: Schema, depth: nat)
    requires IsAccepted(s, depth) && s.ArraySchema? && DecodeSchema(EncodeSchema(s.items), depth + 1) == Some(s.items)
    ensures DecodeSchema(EncodeSchema(s), depth) == Some(s)
  {
    KindIsRead(s);
    ArrayRoundTrip(s, depth);
    ArrayRecordDecodes(EncodeSchema(s).members, EncodeSchema(s.items), depth);
  }

  lemma OrderedArrayDecodes(s: Schema, depth: nat)
    requires IsAccepted(s, depth) && s.OrderedArraySchema? && DecodeSchema(EncodeSchema(s.items), depth + 1) == Some(s.items)
    ensures DecodeSchema(EncodeSchema(s), depth) == Some(s)
  {
    KindIsRead(s);
    OrderedArrayRoundTrip(s, depth);
    ArrayRecordDecodes(EncodeSchema(s).members, EncodeSchema(s.items), depth);
  }

  lemma ObjectDecodes(s: Schema, depth: nat)
    requires IsAccepted(s, depth) && s.ObjectSchema?
    requires DecodeProperties(EncodeProperties(s.properties), depth + 1) == Some(s.properties)
    ensures DecodeSchema(EncodeSchema(s), depth) == Some(s)
  {
    KindIsRead(s);
    ObjectRoundTrip(s, depth);
    ObjectRecordDecodes(EncodeSchema(s).members, EncodeProperties(s.properties), depth);
  }

  lemma ScalarDecodes(s: Schema, depth: nat)
    requires IsAccepted(s, depth) && !s.ObjectSchema? && !s.ArraySchema? && !s.OrderedArraySchema?
    ensures DecodeSchema(EncodeSchema(s), depth) == Some(s)
  {
    KindIsRead(s);
    KindsDiffer();
    if s.IntegerSchema? || s.NumberSchema? {
      NumbersRoundTrip(s, depth);
    } else {
      TextsRoundTrip(s, depth);
    }
  }

  /** Every schema there is can be described, and its description is accepted as just that schema. */
  lemma {:induction false} SchemaRoundTrip(s: Schema, depth: nat)
    requires IsAccepted(s, depth)
    ensures DecodeSchema(EncodeSchema(s), depth) == Some(s)
    decreases s
  {
    match s {
      case ObjectSchema(properties, _) =>
        PropertiesRoundTrip(properties, depth + 1);
        ObjectDecodes(s, depth);
      case ArraySchema(items, _, _, _) =>
        SchemaRoundTrip(items, depth + 1);
        ArrayDecodes(s, depth);
      case OrderedArraySchema(items, _, _, _, _) =>
        SchemaRoundTrip(items, depth + 1);
        OrderedArrayDecodes(s, depth);
      case _ => ScalarDecodes(s, depth);
    }
  }

  lemma {:induction false} PropertiesRoundTrip(properties: seq<Field<Schema>>, depth: nat)
    requires forall i | 0 <= i < |properties| :: IsPropertyKey(properties[i].name) && IsAccepted(properties[i].value, depth)
    ensures DecodeProperties(EncodeProperties(properties), depth) == Some(properties)
    decreases properties
  {
    if properties != [] {
      SchemaRoundTrip(properties[0].value, depth);
      PropertiesRoundTrip(properties[1..], depth);
      var encoded := EncodeProperties(properties);
      assert encoded[1..] == EncodeProperties(properties[1..]);
      assert encoded[0] == Field(properties[0].name, EncodeSchema(properties[0].value));
      assert properties == [Field(properties[0].name, properties[0].value)] + properties[1..];
    }
  }

  // --------------------------------------------------------------- what bounds are worth

  lemma OrderFitsBounds(s: Schema, depth: nat, k: nat)
    requires IsAccepted(s, depth) && s.OrderedArraySchema? && k < s.maxItems
    ensures s.items.ObjectSchema? && var order := Lookup(s.items.properties, s.orderField);
            order.Some? && order.value.value.IntegerSchema?
            && order.value.value.minimum <= s.startAt + k <= order.value.value.maximum
    ensures -MAX_SAFE_INTEGER <= s.startAt + k <= MAX_SAFE_INTEGER
  {
  }

  /** For every length an accepted schema allows, every order an array of that length needs is one its order field may have. */
  lemma OrdersFitTheirBounds(v: Json, depth: nat, s: Schema, n: nat, k: nat)
    requires IsWellFormed(v) && DecodeSchema(v, depth) == Some(s) && s.OrderedArraySchema?
    requires s.minItems <= n <= s.maxItems && k < n
    ensures s.items.ObjectSchema? && var order := Lookup(s.items.properties, s.orderField);
            order.Some? && ScalarConforms(order.value.value, Whole(s.startAt + k))
  {
    SchemaIsAccepted(v, depth);
    OrderFitsBounds(s, depth, k);
    WholeIsRead(s.startAt + k);
  }

  lemma {:induction false} AcceptedIsRecord(s: Schema, depth: nat)
    requires IsAccepted(s, depth)
    ensures IsRecord(s)
    decreases s
  {
    match s {
      case ObjectSchema(properties, _) =>
        forall i | 0 <= i < |properties| ensures IsRecord(properties[i].value) {
          AcceptedIsRecord(properties[i].value, depth + 1);
        }
        forall i, j | 0 <= i < j < |properties| ensures properties[i].name != properties[j].name {
          TextOrderIsTotal(properties[i].name, properties[j].name);
        }
      case ArraySchema(items, _, _, _) => AcceptedIsRecord(items, depth + 1);
      case OrderedArraySchema(items, _, _, _, _) => AcceptedIsRecord(items, depth + 1);
      case _ =>
    }
  }
}
