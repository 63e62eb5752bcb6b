/**
 * The store's own canonical JSON: it sets the members of each object in order and leaves the writing to `JSON.stringify`,
 * which lists them in property order. Here is when that is the registry's canonical text.
 */
module StoreJson {
  import opened Prelude
  import opened Lists
  import opened JsonText
  import opened JsonValues
  import opened JsonReader
  import opened CanonicalJson
  import opened RunnerDecoding

  // --------------------------------------------------------------- property order

  const MAX_ARRAY_LENGTH := 0xFFFF_FFFF

  predicate IsDecimal(name: Text) {
    name != [] && forall i | 0 <= i < |name| :: 0x30 <= name[i] <= 0x39
  }

  function DecimalValue(name: Text): nat
    requires forall i | 0 <= i < |name| :: 0x30 <= name[i] <= 0x39
  {
    if name == [] then 0 else 10 * DecimalValue(name[..|name| - 1]) + (name[|name| - 1] - 0x30) as nat
  }

  /** The array index a name spells in its shortest form, if it does. */
  function ArrayIndex(name: Text): Option<nat> {
    if !IsDecimal(name) || (|name| > 1 && name[0] == 0x30) || DecimalValue(name) >= MAX_ARRAY_LENGTH then None
    else Some(DecimalValue(name))
  }

  /** The decimal text of a number, without leading zeros. */
  function DecimalText(n: nat): (r: Text)
    ensures r != []
  {
    if n < 10 then [0x30 + n as CodeUnit] else DecimalText(n / 10) + [0x30 + (n % 10) as CodeUnit]
  }

  lemma {:induction false} DecimalTextIsRead(n: nat)
    ensures IsDecimal(DecimalText(n)) && DecimalValue(DecimalText(n)) == n
    ensures DecimalText(n)[0] == 0x30 <==> n == 0
    ensures |DecimalText(n)| == 1 <==> n < 10
  {
    if n >= 10 {
      DecimalTextIsRead(n / 10);
      var text := DecimalText(n);
      assert text[..|text| - 1] == DecimalText(n / 10);
    }
  }

  lemma {:induction false} DecimalIsWritten(name: Text)
    requires IsDecimal(name) && (|name| == 1 || name[0] != 0x30)
    ensures DecimalText(DecimalValue(name)) == name && (name[0] != 0x30 ==> DecimalValue(name) > 0)
    decreases |name|
  {
    var front, last := name[..|name| - 1], name[|name| - 1];
    if |name| > 1 {
      DecimalIsWritten(front);
      assert name == front + [last];
    } else {
      assert front == [];
    }
  }

  /** A name is an array index exactly when it is the decimal text of a number below 2 ** 32 - 1. */
  lemma ArrayIndexMeaning(name: Text, n: nat)
    ensures ArrayIndex(name) == Some(n) <==> n < 4294967295 && name == DecimalText(n)
  {
    DecimalTextIsRead(n);
    if ArrayIndex(name) == Some(n) {
      DecimalIsWritten(name);
    }
  }

  /** Array indices come first and in ascending order; among other names the order is that of setting. */
  predicate ListedBefore(a: Text, b: Text) {
    ArrayIndex(a).Some? && (ArrayIndex(b).None? || ArrayIndex(a).value < ArrayIndex(b).value)
  }

  function ListField<T>(field: Field<T>, listed: seq<Field<T>>): (r: seq<Field<T>>)
    ensures |r| == |listed| + 1
  {
    if listed == [] || !ListedBefore(listed[0].name, field.name) then [field] + listed
    else [listed[0]] + ListField(field, listed[1..])
  }

  /** Members set in this order, as the language lists them. */
  function PropertyOrder<T>(members: seq<Field<T>>): (r: seq<Field<T>>)
    ensures |r| == |members|
  {
    if members == [] then [] else ListField(members[0], PropertyOrder(members[1..]))
  }

  predicate IsListed<T>(members: seq<Field<T>>) {
    forall i, j | 0 <= i < j < |members| :: !ListedBefore(members[j].name, members[i].name)
  }

  lemma {:induction false} ListFieldMembers<T>(field: Field<T>, listed: seq<Field<T>>, x: Field<T>)
    ensures x in ListField(field, listed) <==> x == field || x in listed
  {
    if listed != [] && ListedBefore(listed[0].name, field.name) {
      ListFieldMembers(field, listed[1..], x);
      assert listed == [listed[0]] + listed[1..];
    }
  }

  lemma {:induction false} ListedMembers<T>(members: seq<Field<T>>, x: Field<T>)
    ensures x in PropertyOrder(members) <==> x in members
  {
    if members != [] {
      ListedMembers(members[1..], x);
      ListFieldMembers(members[0], PropertyOrder(members[1..]), x);
      assert members == [members[0]] + members[1..];
    }
  }

  lemma PrependListed<T>(field: Field<T>, s: seq<Field<T>>)
    requires IsListed(s) && (s != [] ==> !ListedBefore(s[0].name, field.name))
    ensures IsListed([field] + s)
  {
  }

  lemma {:induction false} ListFieldIsListed<T>(field: Field<T>, listed: seq<Field<T>>)
    requires IsListed(listed)
    ensures IsListed(ListField(field, listed))
    ensures ListField(field, listed)[0] == field || (listed != [] && ListField(field, listed)[0] == listed[0])
  {
    if listed == [] || !ListedBefore(listed[0].name, field.name) {
      PrependListed(field, listed);
    } else {
      ListFieldIsListed(field, listed[1..]);
      PrependListed(listed[0], ListField(field, listed[1..]));
    }
  }

  lemma {:induction false} OrderIsListed<T>(members: seq<Field<T>>)
    ensures IsListed(PropertyOrder(members))
  {
    if members != [] {
      OrderIsListed(members[1..]);
      ListFieldIsListed(members[0], PropertyOrder(members[1..]));
    }
  }

  lemma {:induction false} ListedStays<T>(members: seq<Field<T>>)
    requires IsListed(members)
    ensures PropertyOrder(members) == members
  {
    if members != [] {
      ListedStays(members[1..]);
      assert |members| > 1 ==> members[1..][0] == members[1];
      assert [members[0]] + members[1..] == members;
    }
  }

  function OtherNames<T>(members: seq<Field<T>>): seq<Field<T>> {
    Filter(members, (x: Field<T>) => ArrayIndex(x.name).None?)
  }

  lemma NextOther<T>(field: Field<T>, rest: seq<Field<T>>)
    ensures OtherNames([field] + rest) == if ArrayIndex(field.name).None? then [field] + OtherNames(rest) else OtherNames(rest)
  {
    assert ([field] + rest)[1..] == rest;
    assert [] + OtherNames(rest) == OtherNames(rest);
  }

  lemma {:induction false} ListFieldKeepsOthers<T>(field: Field<T>, listed: seq<Field<T>>)
    requires IsListed(listed)
    ensures OtherNames(ListField(field, listed)) == OtherNames([field] + listed)
  {
    if listed != [] && ListedBefore(listed[0].name, field.name) {
      ListFieldKeepsOthers(field, listed[1..]);
      NextOther(listed[0], ListField(field, listed[1..]));
      NextOther(field, listed[1..]);
      NextOther(field, listed);
      NextOther(listed[0], listed[1..]);
      assert listed == [listed[0]] + listed[1..];
    }
  }

  /** Listing lists the same members: array indices first and ascending, and all others as they were set. */
  lemma {:induction false} PropertyOrderMeaning<T>(members: seq<Field<T>>)
    ensures forall x :: x in PropertyOrder(members) <==> x in members
    ensures IsListed(PropertyOrder(members)) && OtherNames(PropertyOrder(members)) == OtherNames(members)
  {
    forall x ensures x in PropertyOrder(members) <==> x in members {
      ListedMembers(members, x);
    }
    OrderIsListed(members);
    if members != [] {
      PropertyOrderMeaning(members[1..]);
      ListFieldKeepsOthers(members[0], PropertyOrder(members[1..]));
      NextOther(members[0], PropertyOrder(members[1..]));
      NextOther(members[0], members[1..]);
      assert [members[0]] + members[1..] == members;
    }
  }

  // ------------------------------------------------------------------- the store's text

  /** What `JSON.stringify` writes of a value: members listed, what is no data left out, and every number made one of JSON. */
  function Serialised(v: Json): Json {
    match v
    case Num(NegativeZero) => Num(Finite(0.0))
    case Num(NotFinite(_)) => Null
    case Arr(items) => Arr(SerialisedItems(items))
    case Obj(members) => Obj(PropertyOrder(SerialisedMembers(members)))
    case _ => v
  }

  function SerialisedItems(items: seq<Json>): (r: seq<Json>)
    ensures |r| == |items|
  {
    if items == [] then []
    else [if items[0].NotData? then Null else Serialised(items[0])] + SerialisedItems(items[1..])
  }

  function SerialisedMembers(members: seq<Field<Json>>): seq<Field<Json>> {
    if members == [] then []
    else (if members[0].value.NotData? then [] else [Field(members[0].name, Serialised(members[0].value))])
         + SerialisedMembers(members[1..])
  }

  /** `canonicalJson` of the store; of no data there is no text. */
  function StoreText(v: Json, f: NumberFormat): Option<Text> {
    if v.NotData? then None else Some(PlainText(Serialised(SortValue(v)), f))
  }

  lemma {:induction false} SerialisedItem(items: seq<Json>, i: nat)
    requires i < |items| && !items[i].NotData?
    ensures SerialisedItems(items)[i] == Serialised(items[i])
  {
    if i > 0 {
      SerialisedItem(items[1..], i - 1);
    }
  }

  lemma {:induction false} SerialisedEach(members: seq<Field<Json>>)
    requires forall i | 0 <= i < |members| :: !members[i].value.NotData?
    ensures |SerialisedMembers(members)| == |members|
    ensures forall i | 0 <= i < |members| :: SerialisedMembers(members)[i] == Field(members[i].name, Serialised(members[i].value))
  {
    if members != [] {
      SerialisedEach(members[1..]);
    }
  }

  // --------------------------------------------------- when listing changes nothing

  /** Every object of the value has its members set in the order they are listed. */
  predicate IsSetAsListed(v: Json) {
    match v
    case Arr(items) => forall i | 0 <= i < |items| :: IsSetAsListed(items[i])
    case Obj(members) => IsListed(members) && forall i | 0 <= i < |members| :: IsSetAsListed(members[i].value)
    case _ => true
  }

  lemma ObjectStays(members: seq<Field<Json>>)
    requires forall i | 0 <= i < |members| :: !members[i].value.NotData?
    ensures PropertyOrder(SerialisedMembers(members)) == members <==>
            IsListed(members) && forall i | 0 <= i < |members| :: Serialised(members[i].value) == members[i].value
  {
    var each := SerialisedMembers(members);
    SerialisedEach(members);
    if PropertyOrder(each) == members {
      OrderIsListed(each);
      assert IsListed(each);
      ListedStays(each);
      forall i | 0 <= i < |members| ensures Serialised(members[i].value) == members[i].value {
        assert each[i] == members[i];
      }
    }
    if IsListed(members) && forall i | 0 <= i < |members| :: Serialised(members[i].value) == members[i].value {
      assert each == members;
      ListedStays(members);
    }
  }

  /** Writing data leaves it as it is exactly when its members are set as listed. */
  lemma {:induction false} SerialisingStays(v: Json, f: NumberFormat)
    requires IsPrintable(v, f)
    ensures Serialised(v) == v <==> IsSetAsListed(v)
  {
    match v {
      case Arr(items) =>
        forall i | 0 <= i < |items| ensures SerialisedItems(items)[i] == items[i] <==> IsSetAsListed(items[i]) {
          SerialisedItem(items, i);
          SerialisingStays(items[i], f);
        }
        ItemsStay(items);
      case Obj(members) =>
        forall i | 0 <= i < |members| ensures Serialised(members[i].value) == members[i].value <==> IsSetAsListed(members[i].value) {
          SerialisingStays(members[i].value, f);
        }
        ObjectStays(members);
      case _ =>
    }
  }

  lemma ItemsStay(items: seq<Json>)
    ensures SerialisedItems(items) == items <==> forall i | 0 <= i < |items| :: SerialisedItems(items)[i] == items[i]
  {
  }

  // ---------------------------------------------------------- a condition on the names

  /** In every object, whichever of two names comes first in code units is also listed first, or neither is an array index. */
  predicate NamesAgree(v: Json) {
    match v
    case Arr(items) => forall i | 0 <= i < |items| :: NamesAgree(items[i])
    case Obj(members) => OrdersAgree(members) && forall i | 0 <= i < |members| :: NamesAgree(members[i].value)
    case _ => true
  }

  predicate OrdersAgree<T>(members: seq<Field<T>>) {
    forall i, j | 0 <= i < |members| && 0 <= j < |members| && TextBefore(members[i].name, members[j].name) ::
      !ListedBefore(members[j].name, members[i].name)
  }

  lemma SortedPositions<T>(sorted: seq<Field<T>>, a: nat, b: nat)
    requires Ascends(sorted) && a < |sorted| && b < |sorted| && TextBefore(sorted[a].name, sorted[b].name)
    ensures a < b
  {
    TextOrderIsTotal(sorted[a].name, sorted[b].name);
  }

  lemma AgreeingMembers<T>(members: seq<Field<T>>, sorted: seq<Field<T>>)
    requires Ascends(sorted) && forall x :: x in sorted <==> x in members
    ensures IsListed(sorted) <==> OrdersAgree(members)
  {
    if OrdersAgree(members) {
      forall i, j | 0 <= i < j < |sorted| ensures !ListedBefore(sorted[j].name, sorted[i].name) {
        assert sorted[i] in members && sorted[j] in members;
        var a :| 0 <= a < |members| && members[a] == sorted[i];
        var b :| 0 <= b < |members| && members[b] == sorted[j];
      }
    }
    if IsListed(sorted) {
      forall i, j | 0 <= i < |members| && 0 <= j < |members| && TextBefore(members[i].name, members[j].name)
        ensures !ListedBefore(members[j].name, members[i].name)
      {
        assert members[i] in sorted && members[j] in sorted;
        var a :| 0 <= a < |sorted| && sorted[a] == members[i];
        var b :| 0 <= b < |sorted| && sorted[b] == members[j];
        SortedPositions(sorted, a, b);
      }
    }
  }

  lemma SortedOrdersAgree<T>(members: seq<Field<T>>)
    requires forall i, j | 0 <= i < j < |members| :: members[i].name != members[j].name
    ensures IsListed(SortFields(members)) <==> OrdersAgree(members)
  {
    SortAscends(members);
    forall x ensures x in SortFields(members) <==> x in members {
      SortMembersSame(members, x);
    }
    AgreeingMembers(members, SortFields(members));
  }

  lemma SortedNamesAgree(members: seq<Field<Json>>)
    requires DistinctNames(members)
    ensures IsListed(SortFields(SortMembers(members))) <==> OrdersAgree(members)
  {
    var inside := SortMembers(members);
    forall i | 0 <= i < |members| ensures inside[i].name == members[i].name {
      SortedMember(members, i);
    }
    SortedOrdersAgree(inside);
    assert OrdersAgree(inside) <==> OrdersAgree(members);
  }

  lemma AllSetAsListed(members: seq<Field<Json>>)
    ensures (forall i | 0 <= i < |members| :: IsSetAsListed(SortFields(SortMembers(members))[i].value))
            <==> forall i | 0 <= i < |members| :: IsSetAsListed(SortValue(members[i].value))
  {
    var inside := SortMembers(members);
    var sorted := SortFields(inside);
    forall x ensures x in sorted <==> x in inside {
      SortMembersSame(inside, x);
    }
    forall i | 0 <= i < |members| ensures inside[i].value == SortValue(members[i].value) && inside[i] in sorted && sorted[i] in inside {
      SortedMember(members, i);
      assert inside[i] in inside && sorted[i] in sorted;
    }
  }

  /** Sorting sets the members as they are listed exactly when the two orders of the names agree. */
  lemma {:induction false} SortedIsSetAsListed(v: Json)
    requires IsWellFormed(v)
    ensures IsSetAsListed(SortValue(v)) <==> NamesAgree(v)
  {
    match v {
      case Arr(items) =>
        forall i | 0 <= i < |items| ensures IsSetAsListed(SortItems(items)[i]) <==> NamesAgree(items[i]) {
          SortedItem(items, i);
          SortedIsSetAsListed(items[i]);
        }
      case Obj(members) =>
        forall i | 0 <= i < |members| ensures IsSetAsListed(SortValue(members[i].value)) <==> NamesAgree(members[i].value) {
          SortedIsSetAsListed(members[i].value);
        }
        SortedNamesAgree(members);
        AllSetAsListed(members);
      case _ =>
    }
  }

  // --------------------------------------------------------------------- main results

  lemma {:induction false} SerialisedIsPrintable(v: Json, f: NumberFormat)
    requires IsPrintable(v, f)
    ensures IsPrintable(Serialised(v), f)
  {
    match v {
      case Arr(items) =>
        forall i | 0 <= i < |items| ensures IsPrintable(SerialisedItems(items)[i], f) {
          SerialisedItem(items, i);
          SerialisedIsPrintable(items[i], f);
        }
      case Obj(members) =>
        var each := SerialisedMembers(members);
        SerialisedEach(members);
        forall i | 0 <= i < |each| ensures IsPrintable(each[i].value, f) {
          SerialisedIsPrintable(members[i].value, f);
        }
        forall x | x in PropertyOrder(each) ensures IsPrintable(x.value, f) {
          ListedMembers(each, x);
        }
        PrintableObject(PropertyOrder(each), f);
      case _ =>
    }
  }

  /** No two values of data have one text. */
  lemma PlainTextIsInjective(a: Json, b: Json, f: NumberFormat)
    requires IsNumberFormat(f) && IsPrintable(a, f) && IsPrintable(b, f) && PlainText(a, f) == PlainText(b, f)
    ensures a == b
  {
    ValueRoundTrip(a, [], f);
    ValueRoundTrip(b, [], f);
  }

  /**
   * The store and the registry write one text for a value if and only if the registry writes one at all and in every
   * object the order of the names by code units is the order they are listed in; or there is no data to write.
   */
  lemma CanonicalTextsAgree(v: Json, f: NumberFormat)
    requires IsNumberFormat(f) && IsWellFormed(v)
    ensures StoreText(v, f) == CanonicalText(v, f) <==> v.NotData? || (IsPrintable(v, f) && NamesAgree(v))
  {
    if IsPrintable(v, f) {
      SortingKeepsPrintable(v, f);
      PrintingSorts(v, f);
      SerialisingStays(SortValue(v), f);
      SortedIsSetAsListed(v);
      SerialisedIsPrintable(SortValue(v), f);
      if PlainText(Serialised(SortValue(v)), f) == PlainText(SortValue(v), f) {
        PlainTextIsInjective(Serialised(SortValue(v)), SortValue(v), f);
      }
    }
  }

  const NINE: Text := [0x39]
  const TEN: Text := [0x31, 0x30]

  /** The two canonical texts of one value: the registry writes the member "10" before "9", the store after it. */
  lemma TextsOfTenAndNine(f: NumberFormat) returns (v: Json)
    requires IsNumberFormat(f)
    ensures v == Obj([Field(TEN, Json.Null), Field(NINE, Json.Null)]) && IsWellFormed(v) && IsPrintable(v, f)
    ensures CanonicalText(v, f) == Some(PlainText(v, f))
    ensures StoreText(v, f) == Some(PlainText(Obj([Field(NINE, Json.Null), Field(TEN, Json.Null)]), f))
    ensures StoreText(v, f) != CanonicalText(v, f)
  {
    var nine, ten := Field(NINE, Json.Null), Field(TEN, Json.Null);
    v := Obj([ten, nine]);
    NineAndTen();
    PairSorts(ten, nine);
    PairLists(ten, nine);
    PrintingSorts(v, f);
    assert [nine, ten][0] != [ten, nine][0];
    if StoreText(v, f) == CanonicalText(v, f) {
      PlainTextIsInjective(Obj([nine, ten]), v, f);
    }
  }

  lemma NineAndTen()
    ensures TextBefore(TEN, NINE) && ListedBefore(NINE, TEN)
  {
    assert TEN[..1] == [0x31] && [0x31 as CodeUnit][..0] == [] && NINE[..0] == [];
    assert DecimalValue([0x31]) == 1 && DecimalValue(TEN) == 10 && DecimalValue(NINE) == 9;
  }

  lemma PairSorts(ten: Field<Json>, nine: Field<Json>)
    requires ten == Field(TEN, Json.Null) && nine == Field(NINE, Json.Null)
    ensures SortValue(Obj([ten, nine])) == Obj([ten, nine])
  {
    NineAndTen();
    TextOrderIsTotal(TEN, NINE);
    assert [ten, nine][1..] == [nine] && [nine][1..] == [];
    assert SortMembers([nine]) == [nine] && SortMembers([ten, nine]) == [ten, nine];
    assert SortFields([nine]) == [nine] && SortFields([ten, nine]) == [ten, nine];
  }

  lemma PairLists(ten: Field<Json>, nine: Field<Json>)
    requires ten == Field(TEN, Json.Null) && nine == Field(NINE, Json.Null)
    ensures Serialised(Obj([ten, nine])) == Obj([nine, ten])
  {
    NineAndTen();
    var pair := [ten, nine];
    SerialisedEach(pair);
    assert SerialisedMembers(pair) == pair;
    assert pair[1..] == [nine] && [nine][1..] == [];
    var none: seq<Field<Json>> := [];
    assert PropertyOrder(none) == none && ListField(nine, none) == [nine];
    assert PropertyOrder([nine]) == [nine];
    assert ListField(ten, [nine]) == [nine] + ListField(ten, none);
    assert ListField(ten, none) == [ten];
  }

  /** What the registry refuses the store writes all the same: negative zero as zero, and objects without their undefined members. */
  lemma StoreWritesMore(f: NumberFormat, name: Text)
    ensures StoreText(Num(NegativeZero), f) == StoreText(Num(Finite(0.0)), f) && CanonicalText(Num(NegativeZero), f).None?
    ensures StoreText(Obj([Field(name, NotData("undefined"))]), f) == StoreText(Obj([]), f)
    ensures CanonicalText(Obj([Field(name, NotData("undefined"))]), f).None?
  {
    var members := [Field(name, NotData("undefined"))];
    var none: seq<Field<Json>> := [];
    assert members[1..] == none;
    assert SortMembers(none) == none && SortMembers(members) == members;
    assert SortFields(none) == none && SortFields(members) == members;
    assert SerialisedMembers(members) == none && SerialisedMembers(none) == none;
    assert !IsPrintable(members[0].value, f);
  }

  // ------------------------------------------------------ the store's text tells data too

  predicate DistinctFields<T>(fields: seq<Field<T>>) {
    forall i, j | 0 <= i < j < |fields| :: fields[i].name != fields[j].name
  }

  lemma PrependDistinct<T>(field: Field<T>, rest: seq<Field<T>>)
    requires DistinctFields(rest) && forall x | x in rest :: x.name != field.name
    ensures DistinctFields([field] + rest)
  {
    forall i | 0 <= i < |rest| ensures rest[i].name != field.name {
      assert rest[i] in rest;
    }
  }

  lemma HeadIsDistinct<T>(fields: seq<Field<T>>)
    requires DistinctFields(fields) && fields != []
    ensures DistinctFields(fields[1..]) && forall x | x in fields[1..] :: x.name != fields[0].name
  {
    forall x | x in fields[1..] ensures x.name != fields[0].name {
      var k :| 0 <= k < |fields| - 1 && fields[1..][k] == x;
      assert fields[k + 1] == x;
    }
  }

  lemma {:induction false} ListFieldIsDistinct<T>(field: Field<T>, listed: seq<Field<T>>)
    requires DistinctFields(listed) && forall x | x in listed :: x.name != field.name
    ensures DistinctFields(ListField(field, listed))
  {
    if listed == [] || !ListedBefore(listed[0].name, field.name) {
      PrependDistinct(field, listed);
    } else {
      HeadIsDistinct(listed);
      assert forall x | x in listed[1..] :: x in listed;
      assert listed[0] in listed;
      ListFieldIsDistinct(field, listed[1..]);
      forall x | x in ListField(field, listed[1..]) ensures x.name != listed[0].name {
        ListFieldMembers(field, listed[1..], x);
      }
      PrependDistinct(listed[0], ListField(field, listed[1..]));
    }
  }

  lemma {:induction false} ListedIsDistinct<T>(members: seq<Field<T>>)
    requires DistinctFields(members)
    ensures DistinctFields(PropertyOrder(members))
  {
    if members != [] {
      HeadIsDistinct(members);
      ListedIsDistinct(members[1..]);
      forall x | x in PropertyOrder(members[1..]) ensures x.name != members[0].name {
        ListedMembers(members[1..], x);
      }
      ListFieldIsDistinct(members[0], PropertyOrder(members[1..]));
    }
  }

  lemma SortingForgetsListing<T>(members: seq<Field<T>>)
    requires DistinctFields(members) && Ascends(members)
    ensures SortFields(PropertyOrder(members)) == members
  {
    ListedIsDistinct(members);
    SortAscends(PropertyOrder(members));
    SortedListingMembers(members);
    AscendingIsUnique(SortFields(PropertyOrder(members)), members);
  }

  lemma SortedListingMembers<T>(members: seq<Field<T>>)
    ensures forall x :: x in SortFields(PropertyOrder(members)) <==> x in members
  {
    forall x ensures x in SortFields(PropertyOrder(members)) <==> x in members {
      ListedMembers(members, x);
      SortMembersSame(PropertyOrder(members), x);
    }
  }

  lemma {:induction false} ListingSortsInside(field: Field<Json>, listed: seq<Field<Json>>)
    ensures SortMembers(ListField(field, listed)) == ListField(Field(field.name, SortValue(field.value)), SortMembers(listed))
  {
    if listed == [] || !ListedBefore(listed[0].name, field.name) {
      assert ([field] + listed)[1..] == listed;
    } else {
      ListingSortsInside(field, listed[1..]);
      assert ([listed[0]] + ListField(field, listed[1..]))[1..] == ListField(field, listed[1..]);
      assert SortMembers(listed)[1..] == SortMembers(listed[1..]);
    }
  }

  lemma {:induction false} ListingCommutes(members: seq<Field<Json>>)
    ensures SortMembers(PropertyOrder(members)) == PropertyOrder(SortMembers(members))
  {
    if members != [] {
      ListingCommutes(members[1..]);
      ListingSortsInside(members[0], PropertyOrder(members[1..]));
      assert SortMembers(members)[1..] == SortMembers(members[1..]);
    }
  }

  /** In every object the members ascend. */
  predicate IsSorted(v: Json) {
    match v
    case Arr(items) => forall i | 0 <= i < |items| :: IsSorted(items[i])
    case Obj(members) => Ascends(members) && forall i | 0 <= i < |members| :: IsSorted(members[i].value)
    case _ => true
  }

  lemma {:induction false} SortingSorts(v: Json)
    requires IsWellFormed(v)
    ensures IsSorted(SortValue(v))
  {
    match v {
      case Arr(items) =>
        forall i | 0 <= i < |items| ensures IsSorted(SortItems(items)[i]) {
          SortedItem(items, i);
          SortingSorts(items[i]);
        }
      case Obj(members) =>
        var inside := SortMembers(members);
        forall i | 0 <= i < |members| ensures inside[i].name == members[i].name && IsSorted(inside[i].value) {
          SortedMember(members, i);
          SortingSorts(members[i].value);
        }
        SortAscends(inside);
        forall i | 0 <= i < |members| ensures IsSorted(SortFields(inside)[i].value) {
          SortMembersSame(inside, SortFields(inside)[i]);
        }
      case _ =>
    }
  }

  lemma ObjectSortsBack(members: seq<Field<Json>>)
    requires Ascends(members) && forall i | 0 <= i < |members| :: !members[i].value.NotData?
    requires forall i | 0 <= i < |members| :: SortValue(Serialised(members[i].value)) == members[i].value
    ensures SortValue(Serialised(Obj(members))) == Obj(members)
  {
    var each := SerialisedMembers(members);
    SerialisedEach(members);
    forall i | 0 <= i < |members| ensures SortMembers(each)[i] == members[i] {
      SortedMember(each, i);
    }
    assert SortMembers(each) == members;
    ListingCommutes(each);
    forall i, j | 0 <= i < j < |members| ensures members[i].name != members[j].name {
      TextOrderIsTotal(members[i].name, members[j].name);
    }
    SortingForgetsListing(members);
  }

  /** Sorting what was written gives back what was sorted before. */
  lemma {:induction false} SerialisingSortsBack(v: Json, f: NumberFormat)
    requires IsPrintable(v, f) && IsSorted(v)
    ensures SortValue(Serialised(v)) == v
  {
    match v {
      case Arr(items) =>
        forall i | 0 <= i < |items| ensures SortItems(SerialisedItems(items))[i] == items[i] {
          SerialisedItem(items, i);
          SortedItem(SerialisedItems(items), i);
          SerialisingSortsBack(items[i], f);
        }
        assert SortItems(SerialisedItems(items)) == items;
      case Obj(members) =>
        forall i | 0 <= i < |members| ensures SortValue(Serialised(members[i].value)) == members[i].value {
          SerialisingSortsBack(members[i].value, f);
        }
        ObjectSortsBack(members);
      case _ =>
    }
  }

  /** Of data the registry accepts, the store's text too tells values apart exactly up to the order of members. */
  lemma StoreTextTellsData(a: Json, b: Json, f: NumberFormat)
    requires IsNumberFormat(f) && IsPrintable(a, f) && IsPrintable(b, f) && IsWellFormed(a) && IsWellFormed(b)
    ensures StoreText(a, f) == StoreText(b, f) <==> SameData(a, b)
  {
    SortingTellsData(a, b);
    SortingKeepsPrintable(a, f);
    SortingKeepsPrintable(b, f);
    SortingSorts(a);
    SortingSorts(b);
    SerialisingSortsBack(SortValue(a), f);
    SerialisingSortsBack(SortValue(b), f);
    SerialisedIsPrintable(SortValue(a), f);
    SerialisedIsPrintable(SortValue(b), f);
    if StoreText(a, f) == StoreText(b, f) {
      PlainTextIsInjective(Serialised(SortValue(a)), Serialised(SortValue(b)), f);
    }
  }
}
