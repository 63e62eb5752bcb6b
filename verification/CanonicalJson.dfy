/** The canonical text of data determines it up to the order of object members, and nothing else. */
module CanonicalJson {
  import opened Prelude
  import opened JsonText
  import opened JsonValues
  import opened JsonReader

  // ------------------------------------------------------- equal up to member order

  predicate DistinctNames(members: seq<Field<Json>>) {
    forall i, j | 0 <= i < j < |members| :: members[i].name != members[j].name
  }

  /** No object has two members of the same name: so it is for every object of the language. */
  predicate IsWellFormed(v: Json) {
    match v
    case Arr(items) => forall i | 0 <= i < |items| :: IsWellFormed(items[i])
    case Obj(members) => DistinctNames(members) && forall i | 0 <= i < |members| :: IsWellFormed(members[i].value)
    case _ => true
  }

  /** The same data, whatever order the members of objects come in. */
  predicate SameData(a: Json, b: Json)
    decreases a
  {
    match (a, b)
    case (Arr(x), Arr(y)) => |x| == |y| && forall i | 0 <= i < |x| :: SameData(x[i], y[i])
    case (Obj(x), Obj(y)) => (forall i | 0 <= i < |x| :: HasSame(x[i], y)) && forall j | 0 <= j < |y| :: IsSameAsOne(x, y[j])
    case _ => a == b
  }

  predicate HasSame(member: Field<Json>, members: seq<Field<Json>>)
    decreases member
  {
    exists j :: 0 <= j < |members| && member.name == members[j].name && SameData(member.value, members[j].value)
  }

  predicate IsSameAsOne(members: seq<Field<Json>>, member: Field<Json>)
    decreases members
  {
    exists i :: 0 <= i < |members| && members[i].name == member.name && SameData(members[i].value, member.value)
  }

  // ----------------------------------------------------------------------- sorting

  predicate Ascends<T>(s: seq<Field<T>>) {
    forall i, j | 0 <= i < j < |s| :: TextBefore(s[i].name, s[j].name)
  }

  lemma {:induction false} InsertMembers<T>(field: Field<T>, sorted: seq<Field<T>>, x: Field<T>)
    ensures x in InsertField(field, sorted) <==> x == field || x in sorted
  {
    if sorted != [] && TextBefore(sorted[0].name, field.name) {
      InsertMembers(field, sorted[1..], x);
      assert sorted == [sorted[0]] + sorted[1..];
    }
  }

  lemma {:induction false} SortMembersSame<T>(s: seq<Field<T>>, x: Field<T>)
    ensures x in SortFields(s) <==> x in s
  {
    if s != [] {
      SortMembersSame(s[1..], x);
      InsertMembers(s[0], SortFields(s[1..]), x);
      assert s == [s[0]] + s[1..];
    }
  }

  lemma PrependAscends<T>(field: Field<T>, s: seq<Field<T>>)
    requires Ascends(s) && (s != [] ==> TextBefore(field.name, s[0].name))
    ensures Ascends([field] + s)
  {
    forall j | 0 <= j < |s| ensures TextBefore(field.name, s[j].name) {
      if j > 0 {
        TextOrderChains(field.name, s[0].name, s[j].name);
      }
    }
  }

  lemma {:induction false} InsertAscends<T>(field: Field<T>, sorted: seq<Field<T>>)
    requires Ascends(sorted) && forall x | x in sorted :: x.name != field.name
    ensures Ascends(InsertField(field, sorted))
    ensures InsertField(field, sorted)[0].name == field.name
            || (sorted != [] && InsertField(field, sorted)[0] == sorted[0])
  {
    if sorted == [] {
    } else if !TextBefore(sorted[0].name, field.name) {
      TextOrderIsTotal(field.name, sorted[0].name);
      assert sorted[0] in sorted;
      PrependAscends(field, sorted);
    } else {
      assert Ascends(sorted[1..]) && forall x | x in sorted[1..] :: x in sorted;
      InsertAscends(field, sorted[1..]);
      PrependAscends(sorted[0], InsertField(field, sorted[1..]));
    }
  }

  lemma {:induction false} SortAscends<T>(s: seq<Field<T>>)
    requires forall i, j | 0 <= i < j < |s| :: s[i].name != s[j].name
    ensures Ascends(SortFields(s))
  {
    if s != [] {
      SortAscends(s[1..]);
      forall x | x in SortFields(s[1..]) ensures x.name != s[0].name {
        SortMembersSame(s[1..], x);
        var k :| 0 <= k < |s| - 1 && s[1..][k] == x;
        assert s[k + 1] == x;
      }
      InsertAscends(s[0], SortFields(s[1..]));
    }
  }

  lemma {:induction false} SortedStays<T>(s: seq<Field<T>>)
    requires Ascends(s)
    ensures SortFields(s) == s
  {
    if s != [] {
      SortedStays(s[1..]);
      assert SortFields(s[1..]) == s[1..];
      if |s| > 1 {
        TextOrderIsTotal(s[0].name, s[1].name);
        assert s[1..][0] == s[1];
      }
      assert [s[0]] + s[1..] == s;
    }
  }

  lemma {:induction false} AscendingIsUnique<T>(a: seq<Field<T>>, b: seq<Field<T>>)
    requires Ascends(a) && Ascends(b) && forall x :: x in a <==> x in b
    ensures a == b
  {
    if a == [] || b == [] {
      if a != [] {
        HasMember(a);
      }
      if b != [] {
        HasMember(b);
      }
    } else {
      assert a[0] in a && a[0] in b && b[0] in b && b[0] in a;
      HeadsAgree(a, b);
      forall x ensures x in a[1..] <==> x in b[1..] {
        TailMember(a, x);
        TailMember(b, x);
      }
      AscendingIsUnique(a[1..], b[1..]);
      assert a == [a[0]] + a[1..] && b == [b[0]] + b[1..];
    }
  }

  lemma HeadsAgree<T>(a: seq<Field<T>>, b: seq<Field<T>>)
    requires Ascends(a) && Ascends(b) && a != [] && b != [] && a[0] in b && b[0] in a
    ensures a[0] == b[0]
  {
    var i :| 0 <= i < |a| && a[i] == b[0];
    var j :| 0 <= j < |b| && b[j] == a[0];
    if i > 0 && j > 0 {
      TextOrderIsTotal(a[0].name, b[0].name);
    }
  }

  lemma TailMember<T>(s: seq<Field<T>>, x: Field<T>)
    requires Ascends(s) && s != []
    ensures x in s[1..] <==> x in s && x != s[0]
  {
    if x in s[1..] {
      var k :| 0 <= k < |s| - 1 && s[1..][k] == x;
      assert s[k + 1] == x;
      TextOrderIsTotal(s[0].name, x.name);
    }
    if x in s && x != s[0] {
      var k :| 0 <= k < |s| && s[k] == x;
      assert s[1..][k - 1] == x;
    }
  }

  // ------------------------------------------------------------------ what sorting means

  lemma {:induction false} SortedItem(items: seq<Json>, i: nat)
    requires i < |items|
    ensures SortItems(items)[i] == SortValue(items[i])
  {
    if i > 0 {
      SortedItem(items[1..], i - 1);
    }
  }

  lemma {:induction false} SortedMember(members: seq<Field<Json>>, i: nat)
    requires i < |members|
    ensures SortMembers(members)[i] == Field(members[i].name, SortValue(members[i].value))
  {
    if i > 0 {
      SortedMember(members[1..], i - 1);
    }
  }

  /** Sorted alike exactly when every member of one is a member of the other. */
  lemma SortedAlike<T>(a: seq<Field<T>>, b: seq<Field<T>>)
    requires forall i, j | 0 <= i < j < |a| :: a[i].name != a[j].name
    requires forall i, j | 0 <= i < j < |b| :: b[i].name != b[j].name
    ensures SortFields(a) == SortFields(b) <==> (forall x | x in a :: x in b) && forall x | x in b :: x in a
  {
    forall x ensures (x in SortFields(a) <==> x in a) && (x in SortFields(b) <==> x in b) {
      SortMembersSame(a, x);
      SortMembersSame(b, x);
    }
    if (forall x | x in a :: x in b) && forall x | x in b :: x in a {
      SortAscends(a);
      SortAscends(b);
      AscendingIsUnique(SortFields(a), SortFields(b));
    }
  }

  predicate HasSorted(member: Field<Json>, members: seq<Field<Json>>) {
    exists j :: 0 <= j < |members| && member.name == members[j].name && SortValue(member.value) == SortValue(members[j].value)
  }

  predicate SortsLike(a: seq<Field<Json>>, b: seq<Field<Json>>) {
    forall i | 0 <= i < |a| :: HasSorted(a[i], b)
  }

  lemma SortedMemberIn(member: Field<Json>, b: seq<Field<Json>>)
    ensures Field(member.name, SortValue(member.value)) in SortMembers(b) <==> HasSorted(member, b)
  {
    forall j | 0 <= j < |b| ensures SortMembers(b)[j] == Field(b[j].name, SortValue(b[j].value)) {
      SortedMember(b, j);
    }
    if HasSorted(member, b) {
      var j :| 0 <= j < |b| && member.name == b[j].name && SortValue(member.value) == SortValue(b[j].value);
      assert SortMembers(b)[j] in SortMembers(b);
    }
  }

  lemma MembersIn(a: seq<Field<Json>>, b: seq<Field<Json>>)
    ensures (forall x | x in SortMembers(a) :: x in SortMembers(b)) <==> SortsLike(a, b)
  {
    forall i | 0 <= i < |a| ensures SortMembers(a)[i] in SortMembers(b) <==> HasSorted(a[i], b) {
      SortedMember(a, i);
      SortedMemberIn(a[i], b);
    }
    if forall x | x in SortMembers(a) :: x in SortMembers(b) {
      forall i | 0 <= i < |a| ensures HasSorted(a[i], b) {
        assert SortMembers(a)[i] in SortMembers(a);
      }
    }
    if SortsLike(a, b) {
      forall x | x in SortMembers(a) ensures x in SortMembers(b) {
        var i :| 0 <= i < |a| && SortMembers(a)[i] == x;
        assert HasSorted(a[i], b);
      }
    }
  }

  lemma SortedObjectsAlike(a: seq<Field<Json>>, b: seq<Field<Json>>)
    requires DistinctNames(a) && DistinctNames(b)
    ensures SortFields(SortMembers(a)) == SortFields(SortMembers(b)) <==> SortsLike(a, b) && SortsLike(b, a)
  {
    forall i | 0 <= i < |a| ensures SortMembers(a)[i].name == a[i].name {
      SortedMember(a, i);
    }
    forall j | 0 <= j < |b| ensures SortMembers(b)[j].name == b[j].name {
      SortedMember(b, j);
    }
    SortedAlike(SortMembers(a), SortMembers(b));
    MembersIn(a, b);
    MembersIn(b, a);
  }

  /** Values sort to the same value exactly when they hold the same data. */
  lemma {:induction false} SortingTellsData(a: Json, b: Json)
    requires IsWellFormed(a) && IsWellFormed(b)
    ensures SortValue(a) == SortValue(b) <==> SameData(a, b)
  {
    match (a, b) {
      case (Arr(x), Arr(y)) =>
        forall i | 0 <= i < |x| && i < |y| ensures SortValue(x[i]) == SortValue(y[i]) <==> SameData(x[i], y[i]) {
          SortingTellsData(x[i], y[i]);
        }
        ItemsSortAlike(x, y);
      case (Obj(x), Obj(y)) =>
        forall i, j | 0 <= i < |x| && 0 <= j < |y| ensures SortValue(x[i].value) == SortValue(y[j].value) <==> SameData(x[i].value, y[j].value) {
          SortingTellsData(x[i].value, y[j].value);
        }
        SortedObjectsAlike(x, y);
        ObjectsSameData(x, y);
      case _ =>
    }
  }

  lemma ItemsSortAlike(x: seq<Json>, y: seq<Json>)
    ensures SortItems(x) == SortItems(y) <==> |x| == |y| && forall i | 0 <= i < |x| :: SortValue(x[i]) == SortValue(y[i])
  {
    forall i | 0 <= i < |x| ensures SortItems(x)[i] == SortValue(x[i]) {
      SortedItem(x, i);
    }
    forall i | 0 <= i < |y| ensures SortItems(y)[i] == SortValue(y[i]) {
      SortedItem(y, i);
    }
  }

  lemma ObjectsSameData(x: seq<Field<Json>>, y: seq<Field<Json>>)
    requires forall i, j | 0 <= i < |x| && 0 <= j < |y| :: SortValue(x[i].value) == SortValue(y[j].value) <==> SameData(x[i].value, y[j].value)
    ensures SameData(Obj(x), Obj(y)) <==> SortsLike(x, y) && SortsLike(y, x)
  {
    forall i | 0 <= i < |x| ensures HasSame(x[i], y) <==> HasSorted(x[i], y) {
    }
    forall j | 0 <= j < |y| ensures IsSameAsOne(x, y[j]) <==> HasSorted(y[j], x) {
    }
  }

  // ------------------------------------------------------------------ main results

  predicate ArePrintable(members: seq<Field<Json>>, f: NumberFormat) {
    forall x | x in members :: IsPrintable(x.value, f)
  }

  lemma PrintableObject(members: seq<Field<Json>>, f: NumberFormat)
    ensures IsPrintable(Obj(members), f) <==> ArePrintable(members, f)
  {
    if IsPrintable(Obj(members), f) {
      forall x | x in members ensures IsPrintable(x.value, f) {
        var i :| 0 <= i < |members| && members[i] == x;
      }
    }
  }

  lemma SortingKeepsFields(members: seq<Field<Json>>, f: NumberFormat)
    ensures ArePrintable(SortFields(members), f) <==> ArePrintable(members, f)
  {
    forall x ensures x in SortFields(members) <==> x in members {
      SortMembersSame(members, x);
    }
  }

  lemma {:induction false} SortingKeepsPrintable(v: Json, f: NumberFormat)
    ensures IsPrintable(SortValue(v), f) <==> IsPrintable(v, f)
  {
    match v {
      case Arr(items) =>
        forall i | 0 <= i < |items| ensures IsPrintable(SortItems(items)[i], f) <==> IsPrintable(items[i], f) {
          SortingKeepsPrintable(items[i], f);
          SortedItem(items, i);
        }
      case Obj(members) =>
        forall i | 0 <= i < |members| ensures IsPrintable(SortMembers(members)[i].value, f) <==> IsPrintable(members[i].value, f) {
          SortingKeepsPrintable(members[i].value, f);
          SortedMember(members, i);
        }
        assert IsPrintable(Obj(SortMembers(members)), f) <==> IsPrintable(v, f);
        PrintableObject(SortMembers(members), f);
        SortingKeepsFields(SortMembers(members), f);
        PrintableObject(SortFields(SortMembers(members)), f);
      case _ =>
    }
  }

  /** Reading the canonical text gives the data back, with members in order. */
  lemma CanonicalRoundTrip(v: Json, f: NumberFormat)
    requires IsNumberFormat(f) && IsPrintable(v, f)
    ensures ReadValue(Printed(v, f), f) == Some((SortValue(v), []))
  {
    PrintingSorts(v, f);
    SortingKeepsPrintable(v, f);
    ValueRoundTrip(SortValue(v), [], f);
    assert Printed(v, f) + [] == Printed(v, f);
  }

  /** Two values have the same canonical text exactly when they hold the same data. */
  lemma CanonicalTextTellsData(a: Json, b: Json, f: NumberFormat)
    requires IsNumberFormat(f) && IsPrintable(a, f) && IsPrintable(b, f) && IsWellFormed(a) && IsWellFormed(b)
    ensures Printed(a, f) == Printed(b, f) <==> SameData(a, b)
  {
    CanonicalRoundTrip(a, f);
    CanonicalRoundTrip(b, f);
    SortingTellsData(a, b);
    PrintingSorts(a, f);
    PrintingSorts(b, f);
  }

  // --------------------------------------------------------------- the printing loops

  lemma PrintedItemsAt(items: seq<Json>, f: NumberFormat, n: nat)
    requires n < |items|
    ensures PrintedItems(items[..n + 1], f) == PrintedItems(items[..n], f) + [Printed(items[n], f)]
  {
    if n > 0 {
      PrintedItemsAt(items[1..], f, n - 1);
      assert items[..n + 1][1..] == items[1..][..n] && items[..n][1..] == items[1..][..n - 1];
    }
  }

  predicate AllPrintable(items: seq<Json>, f: NumberFormat) {
    forall k | 0 <= k < |items| :: IsPrintable(items[k], f)
  }

  /** `canonicalJson` of the registry. */
  method PrintCanonical(v: Json, f: NumberFormat) returns (r: Option<Text>)
    ensures r == CanonicalText(v, f)
    decreases v, 0
  {
    match v {
      case Arr(items) =>
        var texts := PrintItems(items, f);
        return if texts.None? then None else Some(Bracketed(OPEN_BRACKET, Join(texts.value), CLOSE_BRACKET));
      case Obj(members) =>
        var texts := PrintMembers(members, f);
        PrintableObject(members, f);
        return if texts.None? then None else Some(Bracketed(OPEN_BRACE, Join(texts.value), CLOSE_BRACE));
      case _ =>
        return if IsPrintable(v, f) then Some(ScalarText(v, f)) else None;
    }
  }

  method PrintItems(items: seq<Json>, f: NumberFormat) returns (r: Option<seq<Text>>)
    ensures r == if AllPrintable(items, f) then Some(PrintedItems(items, f)) else None
    decreases items, 1
  {
    var texts: seq<Text> := [];
    for i := 0 to |items|
      invariant texts == PrintedItems(items[..i], f) && AllPrintable(items[..i], f)
    {
      var item := PrintCanonical(items[i], f);
      if item.None? {
        return None;
      }
      PrintedItemsAt(items, f, i);
      texts := texts + [item.value];
    }
    assert items[..|items|] == items;
    return Some(texts);
  }

  method PrintMembers(members: seq<Field<Json>>, f: NumberFormat) returns (r: Option<seq<Text>>)
    ensures r == if ArePrintable(members, f) then Some(FieldTexts(SortFields(PrintedMembers(members, f)))) else None
    decreases members, 1
  {
    var sorted := SortFields(members);
    SortingKeepsFields(members, f);
    PrintableObject(sorted, f);
    var fields: seq<Field<Text>> := [];
    for i := 0 to |sorted|
      invariant |fields| == i && forall k | 0 <= k < i :: IsPrintable(sorted[k].value, f)
      invariant forall k | 0 <= k < i :: fields[k] == Field(sorted[k].name, Printed(sorted[k].value, f))
    {
      SortedIsSmaller(members, i);
      var value := PrintCanonical(sorted[i].value, f);
      if value.None? {
        return None;
      }
      fields := fields + [Field(sorted[i].name, value.value)];
    }
    PrintedFields(sorted, fields, f);
    PrintedSorted(members, f);
    return Some(FieldTexts(fields));
  }

  lemma PrintedFields(members: seq<Field<Json>>, fields: seq<Field<Text>>, f: NumberFormat)
    requires |fields| == |members| && forall k | 0 <= k < |members| :: fields[k] == Field(members[k].name, Printed(members[k].value, f))
    ensures fields == PrintedMembers(members, f)
  {
    forall k | 0 <= k < |members| ensures PrintedMembers(members, f)[k] == fields[k] {
      PrintedMemberAt(members, f, k);
    }
  }

  lemma SortedIsSmaller(members: seq<Field<Json>>, i: nat)
    requires i < |members|
    ensures exists k :: 0 <= k < |members| && members[k] == SortFields(members)[i]
  {
    SortMembersSame(members, SortFields(members)[i]);
  }

  lemma {:induction false} PrintedMemberAt(members: seq<Field<Json>>, f: NumberFormat, i: nat)
    requires i < |members|
    ensures PrintedMembers(members, f)[i] == Field(members[i].name, Printed(members[i].value, f))
  {
    if i > 0 {
      PrintedMemberAt(members[1..], f, i - 1);
    }
  }

  lemma {:induction false} PrintedInsert(field: Field<Json>, sorted: seq<Field<Json>>, f: NumberFormat)
    ensures PrintedMembers(InsertField(field, sorted), f) == InsertField(Field(field.name, Printed(field.value, f)), PrintedMembers(sorted, f))
  {
    if sorted == [] || !TextBefore(sorted[0].name, field.name) {
      assert ([field] + sorted)[1..] == sorted;
    } else {
      PrintedInsert(field, sorted[1..], f);
      assert ([sorted[0]] + InsertField(field, sorted[1..]))[1..] == InsertField(field, sorted[1..]);
      assert PrintedMembers(sorted, f)[1..] == PrintedMembers(sorted[1..], f);
    }
  }

  lemma {:induction false} PrintedSorted(members: seq<Field<Json>>, f: NumberFormat)
    ensures PrintedMembers(SortFields(members), f) == SortFields(PrintedMembers(members, f))
  {
    if members != [] {
      PrintedSorted(members[1..], f);
      PrintedInsert(members[0], SortFields(members[1..]), f);
      assert PrintedMembers(members, f)[1..] == PrintedMembers(members[1..], f);
    }
  }
}
