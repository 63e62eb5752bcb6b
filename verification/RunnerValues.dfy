/** Runner values against their schema: the decoder accepts exactly the values that conform. */
module RunnerValues {
  import opened Prelude
  import opened Lists
  import opened JsonText
  import opened JsonValues
  import opened CanonicalJson

  datatype Schema =
    | ObjectSchema(properties: seq<Field<Schema>>, required: seq<Text>)
    | ArraySchema(items: Schema, minItems: nat, maxItems: nat, uniqueItems: bool)
    | OrderedArraySchema(items: Schema, minItems: nat, maxItems: nat, orderField: Text, startAt: int)
    | StringSchema(minLength: nat, maxLength: nat)
    | EnumSchema(values: seq<Text>)
    | IntegerSchema(minimum: int, maximum: int)
    | NumberSchema(low: real, high: real)
    | BooleanSchema
    | NullSchema

  /** `Number.isSafeInteger`, which takes negative zero for an integer, and its value. */
  function SafeInteger(v: Json): (r: Option<int>)
    ensures r.Some? ==> -MAX_SAFE_INTEGER <= r.value <= MAX_SAFE_INTEGER
  {
    if v == Num(NegativeZero) then Some(0)
    else if v.Num? && v.number.Finite? && v.number.value == v.number.value.Floor as real
            && -MAX_SAFE_INTEGER <= v.number.value.Floor <= MAX_SAFE_INTEGER
    then Some(v.number.value.Floor)
    else None
  }

  function Lookup<T>(members: seq<Field<T>>, name: Text): (r: Option<Field<T>>)
    ensures r.Some? ==> r.value in members && r.value.name == name
    ensures r.None? <==> forall x | x in members :: x.name != name
  {
    First(members, (x: Field<T>) => x.name == name)
  }

  function OrderOf(item: Json, orderField: Text): Option<int> {
    if !item.Obj? then None
    else
      var order := Lookup(item.members, orderField);
      if order.None? then None else SafeInteger(order.value.value)
  }

  /** startAt, startAt + 1, and so on. */
  function Expected(n: nat, startAt: int): (r: seq<int>)
    ensures |r| == n && forall k | 0 <= k < n :: r[k] == startAt + k
    ensures Distinct(r)
  {
    seq(n, i => startAt + i)
  }

  /** The orders are the expected ones in some sequence, each once. */
  ghost predicate IsPermutationFrom(orders: seq<int>, startAt: int) {
    multiset(orders) == multiset(Expected(|orders|, startAt))
  }

  function Orders(items: seq<Json>, orderField: Text): (r: seq<Option<int>>)
    ensures |r| == |items| && forall i | 0 <= i < |r| :: r[i] == OrderOf(items[i], orderField)
  {
    seq(|items|, i requires 0 <= i < |items| => OrderOf(items[i], orderField))
  }

  function Values(orders: seq<Option<int>>): (r: seq<int>)
    requires forall o | o in orders :: o.Some?
    ensures |r| == |orders| && forall i | 0 <= i < |r| :: r[i] == orders[i].value
  {
    seq(|orders|, i requires 0 <= i < |orders| => assert orders[i] in orders; orders[i].value)
  }

  // ------------------------------------------------------------------- conforming

  /** What a schema asks of a value. */
  ghost predicate Conforms(schema: Schema, v: Json, f: NumberFormat)
    decreases schema
  {
    match schema
    case ObjectSchema(properties, required) =>
      && v.Obj?
      && (forall name | name in required :: Lookup(v.members, name).Some?)
      && forall i | 0 <= i < |v.members| :: MemberConforms(properties, v.members[i], f)
    case ArraySchema(items, minItems, maxItems, uniqueItems) =>
      && v.Arr? && minItems <= |v.items| <= maxItems
      && (forall i | 0 <= i < |v.items| :: Conforms(items, v.items[i], f))
      && (uniqueItems ==> AllPrintable(v.items, f) && forall i, j | 0 <= i < j < |v.items| :: !SameData(v.items[i], v.items[j]))
    case OrderedArraySchema(items, minItems, maxItems, orderField, startAt) =>
      && v.Arr? && minItems <= |v.items| <= maxItems
      && (forall i | 0 <= i < |v.items| :: Conforms(items, v.items[i], f))
      && (forall o | o in Orders(v.items, orderField) :: o.Some?)
      && IsPermutationFrom(Values(Orders(v.items, orderField)), startAt)
    case _ => ScalarConforms(schema, v)
  }

  ghost predicate MemberConforms(properties: seq<Field<Schema>>, member: Field<Json>, f: NumberFormat)
    decreases properties
  {
    exists i :: 0 <= i < |properties| && properties[i].name == member.name && Conforms(properties[i].value, member.value, f)
  }

  predicate ScalarConforms(schema: Schema, v: Json) {
    match schema
    case StringSchema(minLength, maxLength) => v.Str? && minLength <= |v.text| <= maxLength
    case EnumSchema(values) => v.Str? && v.text in values
    case IntegerSchema(minimum, maximum) => SafeInteger(v).Some? && minimum <= SafeInteger(v).value <= maximum
    case NumberSchema(low, high) => v.Num? && v.number.Finite? && low <= v.number.value <= high
    case BooleanSchema => v.Bool?
    case NullSchema => v.Null?
    case _ => false
  }

  predicate IsWhole(v: Json, n: int) {
    v == Num(Finite(n as real))
  }

  /** The integers are the safe ones within the bounds, and among them the other zero wherever zero is. */
  lemma IntegersThatConform(v: Json, f: NumberFormat, low: int, high: int)
    ensures Conforms(IntegerSchema(low, high), v, f) <==>
            || (v == Num(NegativeZero) && low <= 0 <= high)
            || exists n :: low <= n <= high && -9007199254740991 <= n <= 9007199254740991 && IsWhole(v, n)
  {
    if v.Num? && v.number.Finite? && v.number.value == v.number.value.Floor as real {
      assert IsWhole(v, v.number.value.Floor);
    }
  }

  /** The values of the other scalar schemas. */
  lemma ScalarsThatConform(v: Json, f: NumberFormat, minLength: nat, maxLength: nat, texts: seq<Text>, low: real, high: real)
    ensures Conforms(NumberSchema(low, high), v, f) <==> exists r: real :: low <= r <= high && v == Num(Finite(r))
    ensures Conforms(StringSchema(minLength, maxLength), v, f) <==> exists t: Text :: minLength <= |t| <= maxLength && v == Str(t)
    ensures Conforms(EnumSchema(texts), v, f) <==> exists t: Text :: t in texts && v == Str(t)
    ensures Conforms(BooleanSchema, v, f) <==> v == Bool(true) || v == Bool(false)
    ensures Conforms(NullSchema, v, f) <==> v == Json.Null
  {
  }

  // ------------------------------------------------------ orders form a permutation

  lemma {:induction false} DistinctMultiset<T>(s: seq<T>)
    requires Distinct(s)
    ensures multiset(s) == multiset(Elements(s))
  {
    if s != [] {
      var n := |s| - 1;
      DistinctMultiset(s[..n]);
      assert s == s[..n] + [s[n]];
      assert Elements(s) == Elements(s[..n]) + {s[n]} && s[n] !in Elements(s[..n]);
    }
  }

  lemma SubsetOfSameSize<T>(a: set<T>, b: set<T>)
    requires b <= a && |a| == |b|
    ensures a == b
  {
    assert a == b + (a - b);
    assert |a| == |b| + |a - b|;
  }

  lemma RepeatedElement<T>(s: seq<T>, i: nat, j: nat)
    requires i < j < |s| && s[i] == s[j]
    ensures multiset(s)[s[i]] >= 2
  {
    assert s == s[..j] + s[j..];
    assert s[..j][i] == s[i] && s[j..][0] == s[i];
    assert s[i] in multiset(s[..j]) && s[i] in multiset(s[j..]);
  }

  predicate HasAll(orders: seq<int>, startAt: int) {
    forall x | x in Expected(|orders|, startAt) :: x in orders
  }

  /** Distinct orders among which every expected one is found are the expected ones: counting leaves no room for others. */
  lemma OrdersFormPermutation(orders: seq<int>, startAt: int)
    ensures Distinct(orders) && HasAll(orders, startAt) <==> IsPermutationFrom(orders, startAt)
  {
    var expected := Expected(|orders|, startAt);
    DistinctMultiset(expected);
    if Distinct(orders) && HasAll(orders, startAt) {
      DistinctMultiset(orders);
      DistinctSize(orders);
      DistinctSize(expected);
      SubsetOfSameSize(Elements(orders), Elements(expected));
    }
    if IsPermutationFrom(orders, startAt) {
      PermutedOrders(orders, expected);
    }
  }

  lemma PermutedOrders(orders: seq<int>, expected: seq<int>)
    requires Distinct(expected) && multiset(orders) == multiset(expected)
    ensures Distinct(orders) && forall x | x in expected :: x in orders
  {
    DistinctMultiset(expected);
    forall x | x in expected ensures x in orders {
      assert x in multiset(expected);
      assert x in multiset(orders);
    }
    forall i, j | 0 <= i < j < |orders| ensures orders[i] != orders[j] {
      if orders[i] == orders[j] {
        RepeatedElement(orders, i, j);
      }
    }
  }
}
