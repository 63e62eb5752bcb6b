/** `decodeRunnerValuePayload`: the decoding loops, proved against what schemas ask. */
module RunnerDecoding {
  import opened Prelude
  import opened JsonText
  import opened JsonValues
  import opened CanonicalJson
  import opened RunnerValues

  /** The properties of an object schema have different names, as in any record. */
  predicate IsRecord(schema: Schema) {
    match schema
    case ObjectSchema(properties, _) =>
      && (forall i, j | 0 <= i < j < |properties| :: properties[i].name != properties[j].name)
      && forall i | 0 <= i < |properties| :: IsRecord(properties[i].value)
    case ArraySchema(items, _, _, _) => IsRecord(items)
    case OrderedArraySchema(items, _, _, _, _) => IsRecord(items)
    case _ => true
  }

  /** Accepted values are returned as they are, but for the order of members. */
  ghost function Decoded(schema: Schema, v: Json, f: NumberFormat): Option<Json> {
    if Conforms(schema, v, f) then Some(SortValue(v)) else None
  }

  // --------------------------------------------------------------- sorting twice

  lemma {:induction false} InsertSortsMembers(field: Field<Json>, sorted: seq<Field<Json>>)
    ensures SortMembers(InsertField(field, sorted)) == InsertField(Field(field.name, SortValue(field.value)), SortMembers(sorted))
  {
    if sorted == [] || !TextBefore(sorted[0].name, field.name) {
      assert ([field] + sorted)[1..] == sorted;
    } else {
      InsertSortsMembers(field, sorted[1..]);
      assert ([sorted[0]] + InsertField(field, sorted[1..]))[1..] == InsertField(field, sorted[1..]);
      assert SortMembers(sorted)[1..] == SortMembers(sorted[1..]);
    }
  }

  /** Sorting the members and sorting inside them commute. */
  lemma {:induction false} SortingCommutes(members: seq<Field<Json>>)
    ensures SortMembers(SortFields(members)) == SortFields(SortMembers(members))
  {
    if members != [] {
      SortingCommutes(members[1..]);
      InsertSortsMembers(members[0], SortFields(members[1..]));
      assert SortMembers(members)[1..] == SortMembers(members[1..]);
    }
  }

  lemma MembersSortedTwice(members: seq<Field<Json>>)
    requires DistinctNames(members)
    requires forall i | 0 <= i < |members| :: SortValue(SortValue(members[i].value)) == SortValue(members[i].value)
    ensures SortFields(SortMembers(SortFields(SortMembers(members)))) == SortFields(SortMembers(members))
  {
    var once := SortMembers(members);
    forall i | 0 <= i < |members| ensures once[i] == Field(members[i].name, SortValue(members[i].value)) && SortMembers(once)[i] == once[i] {
      SortedMember(members, i);
      SortedMember(once, i);
    }
    assert SortMembers(once) == once;
    SortingCommutes(once);
    SortAscends(once);
    SortedStays(SortFields(once));
  }

  lemma {:induction false} SortedTwice(v: Json)
    requires IsWellFormed(v)
    ensures SortValue(SortValue(v)) == SortValue(v)
  {
    match v {
      case Arr(items) =>
        forall i | 0 <= i < |items| ensures SortItems(SortItems(items))[i] == SortItems(items)[i] {
          SortedTwice(items[i]);
          SortedItem(items, i);
          SortedItem(SortItems(items), i);
        }
        assert SortItems(SortItems(items)) == SortItems(items);
      case Obj(members) =>
        forall i | 0 <= i < |members| ensures SortValue(SortValue(members[i].value)) == SortValue(members[i].value) {
          SortedTwice(members[i].value);
        }
        MembersSortedTwice(members);
      case _ =>
    }
  }

  lemma CanonicalOfSorted(v: Json, f: NumberFormat)
    requires IsWellFormed(v)
    ensures Printed(SortValue(v), f) == Printed(v, f)
  {
    SortedTwice(v);
    PrintingSorts(v, f);
    PrintingSorts(SortValue(v), f);
  }

  /** Canonical texts repeat exactly where the data does. */
  lemma SameTextSameData(a: Json, b: Json, f: NumberFormat)
    requires IsNumberFormat(f) && IsWellFormed(a) && IsWellFormed(b) && IsPrintable(a, f) && IsPrintable(b, f)
    ensures Printed(SortValue(a), f) == Printed(SortValue(b), f) <==> SameData(a, b)
  {
    CanonicalOfSorted(a, f);
    CanonicalOfSorted(b, f);
    CanonicalTextTellsData(a, b, f);
  }

  // ------------------------------------------------------------------------ objects

  function IndexOfName<T>(fields: seq<Field<T>>, name: Text): (r: Option<nat>)
    ensures r.Some? ==> r.value < |fields| && fields[r.value].name == name
    ensures r.None? ==> forall i | 0 <= i < |fields| :: fields[i].name != name
  {
    if fields == [] then None
    else if fields[0].name == name then Some(0)
    else
      var rest := IndexOfName(fields[1..], name);
      assert forall i | 0 < i < |fields| :: fields[i] == fields[1..][i - 1];
      if rest.None? then None else Some(rest.value + 1)
  }

  lemma MemberConformsByName(properties: seq<Field<Schema>>, member: Field<Json>, f: NumberFormat)
    requires forall i, j | 0 <= i < j < |properties| :: properties[i].name != properties[j].name
    ensures MemberConforms(properties, member, f) <==>
            var i := IndexOfName(properties, member.name); i.Some? && Conforms(properties[i.value].value, member.value, f)
  {
  }

  ghost predicate MembersConform(properties: seq<Field<Schema>>, members: seq<Field<Json>>, f: NumberFormat) {
    forall i | 0 <= i < |members| :: MemberConforms(properties, members[i], f)
  }

  predicate IsRecordOf(properties: seq<Field<Schema>>) {
    && (forall i, j | 0 <= i < j < |properties| :: properties[i].name != properties[j].name)
    && forall i | 0 <= i < |properties| :: IsRecord(properties[i].value)
  }

  /** The members come as `Object.keys(value).sort()` lists them. */
  method DecodeMembers(properties: seq<Field<Schema>>, members: seq<Field<Json>>, f: NumberFormat) returns (r: Option<seq<Field<Json>>>)
    requires IsNumberFormat(f) && IsRecordOf(properties) && forall i | 0 <= i < |members| :: IsWellFormed(members[i].value)
    ensures r == if MembersConform(properties, members, f) then Some(SortMembers(members)) else None
    decreases properties, 0
  {
    var decoded: seq<Field<Json>> := [];
    for i := 0 to |members|
      invariant |decoded| == i && forall k | 0 <= k < i :: MemberConforms(properties, members[k], f)
      invariant forall k | 0 <= k < i :: decoded[k] == Field(members[k].name, SortValue(members[k].value))
    {
      MemberConformsByName(properties, members[i], f);
      var property := IndexOfName(properties, members[i].name);
      if property.None? {
        return None;
      }
      var item := DecodeValue(properties[property.value].value, members[i].value, f);
      if item.None? {
        return None;
      }
      decoded := decoded + [Field(members[i].name, item.value)];
    }
    SortedPointwise(members, decoded);
    return Some(decoded);
  }

  method DecodeObject(properties: seq<Field<Schema>>, required: seq<Text>, members: seq<Field<Json>>, f: NumberFormat)
    returns (r: Option<Json>)
    requires IsNumberFormat(f) && IsWellFormed(Obj(members)) && IsRecordOf(properties)
    ensures r == if (forall name | name in required :: Lookup(members, name).Some?) && MembersConform(properties, members, f)
                 then Some(SortValue(Obj(members))) else None
    decreases properties, 1
  {
    var allKnown := AllKnown(properties, members);
    if !allKnown {
      UnknownDoesNotConform(properties, members, f);
      return None;
    }
    var allPresent := AllPresent(required, members);
    if !allPresent {
      return None;
    }
    SortedMembersConform(properties, members, f);
    SortingCommutes(members);
    SortedWellFormed(members);
    var decoded := DecodeMembers(properties, SortFields(members), f);
    return if decoded.None? then None else Some(Obj(decoded.value));
  }

  lemma SortedWellFormed(members: seq<Field<Json>>)
    requires forall i | 0 <= i < |members| :: IsWellFormed(members[i].value)
    ensures forall i | 0 <= i < |members| :: IsWellFormed(SortFields(members)[i].value)
  {
    forall i | 0 <= i < |members| ensures IsWellFormed(SortFields(members)[i].value) {
      SortedIsSmaller(members, i);
    }
  }

  lemma SortedPointwise(members: seq<Field<Json>>, decoded: seq<Field<Json>>)
    requires |decoded| == |members|
    requires forall k | 0 <= k < |members| :: decoded[k] == Field(members[k].name, SortValue(members[k].value))
    ensures decoded == SortMembers(members)
  {
    forall k | 0 <= k < |members| ensures SortMembers(members)[k] == decoded[k] {
      SortedMember(members, k);
    }
  }

  lemma SortedMembersConform(properties: seq<Field<Schema>>, members: seq<Field<Json>>, f: NumberFormat)
    ensures MembersConform(properties, SortFields(members), f) <==> MembersConform(properties, members, f)
  {
    var sorted := SortFields(members);
    forall x ensures x in sorted <==> x in members {
      SortMembersSame(members, x);
    }
    if MembersConform(properties, members, f) {
      forall i | 0 <= i < |members| ensures MemberConforms(properties, sorted[i], f) {
        assert sorted[i] in members;
      }
    }
    if MembersConform(properties, sorted, f) {
      forall i | 0 <= i < |members| ensures MemberConforms(properties, members[i], f) {
        assert members[i] in sorted;
      }
    }
  }

  /** No unsupported keys. */
  method AllKnown(properties: seq<Field<Schema>>, members: seq<Field<Json>>) returns (r: bool)
    ensures r <==> forall i | 0 <= i < |members| :: IndexOfName(properties, members[i].name).Some?
  {
    for i := 0 to |members|
      invariant forall k | 0 <= k < i :: IndexOfName(properties, members[k].name).Some?
    {
      if IndexOfName(properties, members[i].name).None? {
        return false;
      }
    }
    return true;
  }

  method AllPresent(required: seq<Text>, members: seq<Field<Json>>) returns (r: bool)
    ensures r <==> forall name | name in required :: Lookup(members, name).Some?
  {
    for i := 0 to |required|
      invariant forall k | 0 <= k < i :: Lookup(members, required[k]).Some?
    {
      if Lookup(members, required[i]).None? {
        assert required[i] in required;
        return false;
      }
    }
    return true;
  }

  lemma UnknownDoesNotConform(properties: seq<Field<Schema>>, members: seq<Field<Json>>, f: NumberFormat)
    requires exists i :: 0 <= i < |members| && IndexOfName(properties, members[i].name).None?
    ensures !MembersConform(properties, members, f)
  {
    var i :| 0 <= i < |members| && IndexOfName(properties, members[i].name).None?;
    assert !MemberConforms(properties, members[i], f);
  }

  // ------------------------------------------------------------------------- arrays

  ghost predicate AllConform(schema: Schema, items: seq<Json>, f: NumberFormat) {
    forall i | 0 <= i < |items| :: Conforms(schema, items[i], f)
  }

  predicate AllWellFormed(items: seq<Json>) {
    forall i | 0 <= i < |items| :: IsWellFormed(items[i])
  }

  /** Item `i` is fine behind those before it. */
  ghost predicate NextFits(schema: Schema, uniqueItems: bool, items: seq<Json>, i: nat, f: NumberFormat)
    requires i < |items|
  {
    && Conforms(schema, items[i], f)
    && (uniqueItems ==> IsPrintable(items[i], f) && forall j | 0 <= j < i :: !SameData(items[j], items[i]))
  }

  ghost predicate ItemsFit(schema: Schema, uniqueItems: bool, items: seq<Json>, n: nat, f: NumberFormat)
    requires n <= |items|
  {
    forall i {:trigger NextFits(schema, uniqueItems, items, i, f)} | 0 <= i < n :: NextFits(schema, uniqueItems, items, i, f)
  }

  /** The texts are those of the first `n` items. */
  ghost predicate AreTexts(texts: set<Text>, items: seq<Json>, n: nat, f: NumberFormat)
    requires n <= |items|
  {
    && (forall i | 0 <= i < n :: IsPrintable(items[i], f) && Printed(SortValue(items[i]), f) in texts)
    && forall text | text in texts :: exists i :: 0 <= i < n && Printed(SortValue(items[i]), f) == text
  }

  lemma RepeatedText(texts: set<Text>, items: seq<Json>, i: nat, f: NumberFormat)
    requires i < |items| && AreTexts(texts, items, i, f) && IsNumberFormat(f) && AllWellFormed(items) && IsPrintable(items[i], f)
    ensures Printed(SortValue(items[i]), f) in texts <==> exists j :: 0 <= j < i && SameData(items[j], items[i])
    ensures AreTexts(texts + {Printed(SortValue(items[i]), f)}, items, i + 1, f)
  {
    forall j | 0 <= j < i ensures Printed(SortValue(items[j]), f) == Printed(SortValue(items[i]), f) <==> SameData(items[j], items[i]) {
      SameTextSameData(items[j], items[i], f);
    }
  }

  /** Remembers the canonical text of item `i`, unless it has none or an item before it has the same. */
  method AddText(texts: set<Text>, items: seq<Json>, i: nat, decoded: Json, f: NumberFormat) returns (r: Option<set<Text>>)
    requires i < |items| && AreTexts(texts, items, i, f) && IsNumberFormat(f) && AllWellFormed(items) && decoded == SortValue(items[i])
    ensures r.Some? <==> IsPrintable(items[i], f) && forall j | 0 <= j < i :: !SameData(items[j], items[i])
    ensures r.Some? ==> AreTexts(r.value, items, i + 1, f)
  {
    SortingKeepsPrintable(items[i], f);
    var canonical := PrintCanonical(decoded, f);
    if canonical.None? {
      return None;
    }
    RepeatedText(texts, items, i, f);
    return if canonical.value in texts then None else Some(texts + {canonical.value});
  }

  /** One turn of the loop: the item decoded, and the texts with its own when items must differ. */
  method DecodeItem(schema: Schema, uniqueItems: bool, items: seq<Json>, i: nat, texts: set<Text>, f: NumberFormat)
    returns (r: Option<(Json, set<Text>)>)
    requires i < |items| && IsNumberFormat(f) && AllWellFormed(items) && IsRecord(schema) && (uniqueItems ==> AreTexts(texts, items, i, f))
    ensures r.Some? <==> NextFits(schema, uniqueItems, items, i, f)
    ensures r.Some? ==> r.value.0 == SortValue(items[i]) && (uniqueItems ==> AreTexts(r.value.1, items, i + 1, f))
    decreases schema, 1
  {
    var item := DecodeValue(schema, items[i], f);
    if item.None? {
      return None;
    }
    if !uniqueItems {
      return Some((item.value, texts));
    }
    var more := AddText(texts, items, i, item.value, f);
    return if more.None? then None else Some((item.value, more.value));
  }

  method DecodeArray(schema: Schema, uniqueItems: bool, items: seq<Json>, f: NumberFormat) returns (r: Option<seq<Json>>)
    requires IsNumberFormat(f) && AllWellFormed(items) && IsRecord(schema)
    ensures r == if ItemsFit(schema, uniqueItems, items, |items|, f) then Some(SortItems(items)) else None
    decreases schema, 2
  {
    var decoded: seq<Json> := [];
    var texts: set<Text> := {};
    for i := 0 to |items|
      invariant AreSortedItems(decoded, items, i)
      invariant ItemsFit(schema, uniqueItems, items, i, f) && (uniqueItems ==> AreTexts(texts, items, i, f))
    {
      var next := DecodeItem(schema, uniqueItems, items, i, texts, f);
      if next.None? {
        return None;
      }
      texts := next.value.1;
      decoded := decoded + [next.value.0];
    }
    ItemsPointwise(items, decoded);
    return Some(decoded);
  }

  predicate AreSortedItems(decoded: seq<Json>, items: seq<Json>, n: nat)
    requires n <= |items|
  {
    |decoded| == n && forall k | 0 <= k < n :: decoded[k] == SortValue(items[k])
  }

  /** What the loop checks item by item is what the schema asks of the array. */
  lemma FittingItemsConform(schema: Schema, uniqueItems: bool, items: seq<Json>, f: NumberFormat)
    ensures ItemsFit(schema, uniqueItems, items, |items|, f) <==>
            && AllConform(schema, items, f)
            && (uniqueItems ==> AllPrintable(items, f) && forall i, j | 0 <= i < j < |items| :: !SameData(items[i], items[j]))
  {
    if ItemsFit(schema, uniqueItems, items, |items|, f) {
      forall j | 0 <= j < |items| ensures Conforms(schema, items[j], f)
        ensures uniqueItems ==> IsPrintable(items[j], f) && forall i | 0 <= i < j :: !SameData(items[i], items[j])
      {
        assert NextFits(schema, uniqueItems, items, j, f);
      }
    }
  }

  lemma ItemsPointwise(items: seq<Json>, decoded: seq<Json>)
    requires AreSortedItems(decoded, items, |items|)
    ensures decoded == SortItems(items)
  {
    forall k | 0 <= k < |items| ensures SortItems(items)[k] == decoded[k] {
      SortedItem(items, k);
    }
  }

  // ----------------------------------------------------------- contiguous ordered arrays

  lemma FoundInSorted<T>(fields: seq<Field<T>>, name: Text)
    requires forall i, j | 0 <= i < j < |fields| :: fields[i].name != fields[j].name
    ensures Lookup(SortFields(fields), name) == Lookup(fields, name)
  {
    var there, here := Lookup(SortFields(fields), name), Lookup(fields, name);
    if here.Some? {
      SortMembersSame(fields, here.value);
      SortMembersSame(fields, there.value);
    } else if there.Some? {
      SortMembersSame(fields, there.value);
    }
  }

  lemma {:induction false} FoundInside(members: seq<Field<Json>>, name: Text)
    ensures var there, here := Lookup(SortMembers(members), name), Lookup(members, name);
            && (there.Some? <==> here.Some?)
            && (here.Some? ==> there.value.value == SortValue(here.value.value))
  {
    if members != [] {
      FoundInside(members[1..], name);
      assert SortMembers(members)[1..] == SortMembers(members[1..]);
      assert SortMembers(members)[0] == Field(members[0].name, SortValue(members[0].value));
    }
  }

  /** Sorting members does not change what is found under a name, as far as numbers go. */
  lemma OrderOfSorted(item: Json, orderField: Text)
    requires IsWellFormed(item)
    ensures OrderOf(SortValue(item), orderField) == OrderOf(item, orderField)
  {
    if item.Obj? {
      forall i | 0 <= i < |item.members| ensures SortMembers(item.members)[i].name == item.members[i].name {
        SortedMember(item.members, i);
      }
      FoundInSorted(SortMembers(item.members), orderField);
      FoundInside(item.members, orderField);
    }
  }

  predicate AllOrdered(items: seq<Json>, orderField: Text) {
    forall o | o in Orders(items, orderField) :: o.Some?
  }

  /** Item `i` has an order, and one that none before it has. */
  ghost predicate NextOrdered(schema: Schema, orderField: Text, items: seq<Json>, i: nat, f: NumberFormat)
    requires i < |items|
  {
    && Conforms(schema, items[i], f) && OrderOf(items[i], orderField).Some?
    && forall j | 0 <= j < i :: OrderOf(items[j], orderField) != OrderOf(items[i], orderField)
  }

  ghost predicate OrdersFit(schema: Schema, orderField: Text, items: seq<Json>, n: nat, f: NumberFormat)
    requires n <= |items|
  {
    forall i {:trigger NextOrdered(schema, orderField, items, i, f)} | 0 <= i < n :: NextOrdered(schema, orderField, items, i, f)
  }

  lemma OneMoreFits(schema: Schema, orderField: Text, items: seq<Json>, i: nat, f: NumberFormat)
    requires i < |items| && OrdersFit(schema, orderField, items, i, f) && NextOrdered(schema, orderField, items, i, f)
    ensures OrdersFit(schema, orderField, items, i + 1, f)
  {
  }

  ghost predicate AreOrders(orders: set<int>, orderField: Text, items: seq<Json>, n: nat)
    requires n <= |items|
  {
    forall x :: x in orders <==> exists j :: 0 <= j < n && OrderOf(items[j], orderField) == Some(x)
  }

  lemma NextOrder(orders: set<int>, orderField: Text, items: seq<Json>, i: nat)
    requires i < |items| && AreOrders(orders, orderField, items, i) && OrderOf(items[i], orderField).Some?
    ensures OrderOf(items[i], orderField).value in orders <==>
            !forall j | 0 <= j < i :: OrderOf(items[j], orderField) != OrderOf(items[i], orderField)
    ensures AreOrders(orders + {OrderOf(items[i], orderField).value}, orderField, items, i + 1)
  {
    var order := OrderOf(items[i], orderField);
    if j :| 0 <= j < i && OrderOf(items[j], orderField) == order {
      assert OrderOf(items[j], orderField) == Some(order.value);
    }
    forall x ensures x in orders + {order.value} <==> exists j :: 0 <= j < i + 1 && OrderOf(items[j], orderField) == Some(x) {
      if x in orders {
        var j :| 0 <= j < i && OrderOf(items[j], orderField) == Some(x);
      }
    }
  }

  /** One turn of the loop: the item decoded, and the orders with its own. */
  method ReadOrder(schema: Schema, orderField: Text, items: seq<Json>, i: nat, orders: set<int>, f: NumberFormat)
    returns (r: Option<(Json, set<int>)>)
    requires i < |items| && IsNumberFormat(f) && AllWellFormed(items) && IsRecord(schema) && AreOrders(orders, orderField, items, i)
    ensures r.Some? <==> NextOrdered(schema, orderField, items, i, f)
    ensures r.Some? ==> r.value.0 == SortValue(items[i]) && AreOrders(r.value.1, orderField, items, i + 1)
    decreases schema, 1
  {
    var item := DecodeValue(schema, items[i], f);
    if item.None? {
      return None;
    }
    OrderOfSorted(items[i], orderField);
    var order := OrderOf(item.value, orderField);
    if order.None? {
      return None;
    }
    NextOrder(orders, orderField, items, i);
    return if order.value in orders then None else Some((item.value, orders + {order.value}));
  }

  method ReadOrders(schema: Schema, orderField: Text, items: seq<Json>, f: NumberFormat) returns (r: Option<(seq<Json>, set<int>)>)
    requires IsNumberFormat(f) && AllWellFormed(items) && IsRecord(schema)
    ensures r.Some? <==> OrdersFit(schema, orderField, items, |items|, f)
    ensures r.Some? ==> r.value.0 == SortItems(items) && AreOrders(r.value.1, orderField, items, |items|)
    decreases schema, 2
  {
    var decoded: seq<Json> := [];
    var orders: set<int> := {};
    for i := 0 to |items|
      invariant |decoded| == i && forall k | 0 <= k < i :: decoded[k] == SortValue(items[k])
      invariant OrdersFit(schema, orderField, items, i, f) && AreOrders(orders, orderField, items, i)
    {
      var next := ReadOrder(schema, orderField, items, i, orders, f);
      if next.None? {
        return None;
      }
      OneMoreFits(schema, orderField, items, i, f);
      orders := next.value.1;
      decoded := decoded + [next.value.0];
    }
    ItemsPointwise(items, decoded);
    return Some((decoded, orders));
  }

  /** What the loop checks item by item: all conform, and their orders are different. */
  lemma FittingOrders(schema: Schema, orderField: Text, items: seq<Json>, f: NumberFormat)
    ensures OrdersFit(schema, orderField, items, |items|, f) <==>
            AllConform(schema, items, f) && AllOrdered(items, orderField) && Distinct(Values(Orders(items, orderField)))
  {
    var orders := Orders(items, orderField);
    if OrdersFit(schema, orderField, items, |items|, f) {
      forall i | 0 <= i < |items| ensures Conforms(schema, items[i], f) && orders[i].Some? && forall j | 0 <= j < i :: orders[j] != orders[i] {
        assert NextOrdered(schema, orderField, items, i, f);
      }
    }
    if AllConform(schema, items, f) && AllOrdered(items, orderField) && Distinct(Values(orders)) {
      forall i | 0 <= i < |items| ensures NextOrdered(schema, orderField, items, i, f) {
        assert orders[i] in orders;
        forall j | 0 <= j < i ensures orders[j] != orders[i] {
          assert orders[j] in orders && Values(orders)[j] != Values(orders)[i];
        }
      }
    }
  }

  lemma OrdersAreValues(orders: set<int>, orderField: Text, items: seq<Json>, x: int)
    requires AllOrdered(items, orderField) && AreOrders(orders, orderField, items, |items|)
    ensures x in orders <==> x in Values(Orders(items, orderField))
  {
    var all := Orders(items, orderField);
    forall j | 0 <= j < |items| ensures all[j].Some? && Values(all)[j] == all[j].value {
      assert all[j] in all;
    }
    if x in orders {
      var j :| 0 <= j < |items| && OrderOf(items[j], orderField) == Some(x);
      assert Values(all)[j] == x;
    }
    if x in Values(all) {
      var j :| 0 <= j < |items| && Values(all)[j] == x;
      assert OrderOf(items[j], orderField) == Some(x);
    }
  }

  method HasExpected(orders: set<int>, startAt: int, n: nat) returns (r: bool)
    ensures r <==> forall x | x in Expected(n, startAt) :: x in orders
  {
    for offset := 0 to n
      invariant forall k | 0 <= k < offset :: Expected(n, startAt)[k] in orders
    {
      assert Expected(n, startAt)[offset] == startAt + offset;
      if startAt + offset !in orders {
        assert Expected(n, startAt)[offset] in Expected(n, startAt);
        return false;
      }
    }
    return true;
  }

  /** The orders read are the expected ones exactly when the array is in order. */
  lemma ExpectedOrders(schema: Schema, orderField: Text, startAt: int, items: seq<Json>, orders: set<int>, f: NumberFormat)
    requires OrdersFit(schema, orderField, items, |items|, f) && AreOrders(orders, orderField, items, |items|)
    ensures AllConform(schema, items, f) && AllOrdered(items, orderField)
    ensures IsPermutationFrom(Values(Orders(items, orderField)), startAt) <==> forall x | x in Expected(|items|, startAt) :: x in orders
  {
    FittingOrders(schema, orderField, items, f);
    var values := Values(Orders(items, orderField));
    OrdersFormPermutation(values, startAt);
    forall x ensures x in orders <==> x in values {
      OrdersAreValues(orders, orderField, items, x);
    }
  }

  lemma NoExpectedOrders(schema: Schema, orderField: Text, startAt: int, items: seq<Json>, f: NumberFormat)
    requires !OrdersFit(schema, orderField, items, |items|, f)
    ensures !(AllConform(schema, items, f) && AllOrdered(items, orderField) && IsPermutationFrom(Values(Orders(items, orderField)), startAt))
  {
    FittingOrders(schema, orderField, items, f);
    if AllOrdered(items, orderField) {
      OrdersFormPermutation(Values(Orders(items, orderField)), startAt);
    }
  }

  method DecodeOrdered(schema: Schema, orderField: Text, startAt: int, items: seq<Json>, f: NumberFormat) returns (r: Option<seq<Json>>)
    requires IsNumberFormat(f) && AllWellFormed(items) && IsRecord(schema)
    ensures r == if AllConform(schema, items, f) && AllOrdered(items, orderField)
                    && IsPermutationFrom(Values(Orders(items, orderField)), startAt)
                 then Some(SortItems(items)) else None
    decreases schema, 3
  {
    var read := ReadOrders(schema, orderField, items, f);
    if read.None? {
      NoExpectedOrders(schema, orderField, startAt, items, f);
      return None;
    }
    var (decoded, orders) := read.value;
    ExpectedOrders(schema, orderField, startAt, items, orders, f);
    var complete := HasExpected(orders, startAt, |decoded|);
    return if complete then Some(decoded) else None;
  }

  // ------------------------------------------------------------------------ decoding

  /** Accepts exactly what conforms. */
  method DecodeValue(schema: Schema, v: Json, f: NumberFormat) returns (r: Option<Json>)
    requires IsNumberFormat(f) && IsWellFormed(v) && IsRecord(schema)
    ensures r == Decoded(schema, v, f)
    decreases schema, 0
  {
    match schema {
      case ObjectSchema(properties, required) =>
        if !v.Obj? {
          return None;
        }
        r := DecodeObject(properties, required, v.members, f);
      case ArraySchema(items, minItems, maxItems, uniqueItems) =>
        if !v.Arr? || |v.items| < minItems || |v.items| > maxItems {
          return None;
        }
        FittingItemsConform(items, uniqueItems, v.items, f);
        var decoded := DecodeArray(items, uniqueItems, v.items, f);
        return if decoded.None? then None else Some(Arr(decoded.value));
      case OrderedArraySchema(items, minItems, maxItems, orderField, startAt) =>
        if !v.Arr? || |v.items| < minItems || |v.items| > maxItems {
          return None;
        }
        var decoded := DecodeOrdered(items, orderField, startAt, v.items, f);
        return if decoded.None? then None else Some(Arr(decoded.value));
      case _ =>
        return if ScalarConforms(schema, v) then Some(v) else None;
    }
  }

  // ------------------------------------------------------------------- negative zero

  /** The one number that passes for an integer and has no canonical text. */
  predicate HasNegativeZero(v: Json) {
    match v
    case Num(n) => n.NegativeZero?
    case Arr(items) => exists i :: 0 <= i < |items| && HasNegativeZero(items[i])
    case Obj(members) => exists i :: 0 <= i < |members| && HasNegativeZero(members[i].value)
    case _ => false
  }

  /** Every finite number of the value is one of the language. */
  predicate HasNumbersOf(v: Json, f: NumberFormat) {
    match v
    case Num(n) => n.Finite? ==> f.isNumber(n.value)
    case Arr(items) => forall i | 0 <= i < |items| :: HasNumbersOf(items[i], f)
    case Obj(members) => forall i | 0 <= i < |members| :: HasNumbersOf(members[i].value, f)
    case _ => true
  }

  /** An accepted value has a canonical text exactly when no negative zero stands in it for an integer. */
  lemma {:induction false} AcceptedIsPrintable(schema: Schema, v: Json, f: NumberFormat)
    requires Conforms(schema, v, f) && HasNumbersOf(v, f)
    ensures IsPrintable(v, f) <==> !HasNegativeZero(v)
    decreases schema
  {
    match schema {
      case ObjectSchema(properties, _) =>
        forall i | 0 <= i < |v.members| ensures IsPrintable(v.members[i].value, f) <==> !HasNegativeZero(v.members[i].value) {
          assert MemberConforms(properties, v.members[i], f);
          var k :| 0 <= k < |properties| && properties[k].name == v.members[i].name && Conforms(properties[k].value, v.members[i].value, f);
          AcceptedIsPrintable(properties[k].value, v.members[i].value, f);
        }
      case ArraySchema(items, _, _, _) =>
        forall i | 0 <= i < |v.items| ensures IsPrintable(v.items[i], f) <==> !HasNegativeZero(v.items[i]) {
          AcceptedIsPrintable(items, v.items[i], f);
        }
      case OrderedArraySchema(items, _, _, _, _) =>
        forall i | 0 <= i < |v.items| ensures IsPrintable(v.items[i], f) <==> !HasNegativeZero(v.items[i]) {
          AcceptedIsPrintable(items, v.items[i], f);
        }
      case _ =>
    }
  }

  lemma NegativeZeroIsAccepted(f: NumberFormat)
    ensures Conforms(IntegerSchema(0, 0), Num(NegativeZero), f) && !IsPrintable(Num(NegativeZero), f)
  {
  }
}
