/** A reader of JSON text that gives back what the printers wrote. */
module JsonReader {
  import opened Prelude
  import opened JsonText
  import opened JsonValues

  /** How many units from `i` on may belong to a number. */
  function NumberEnd(s: Text, i: nat): (n: nat)
    requires i <= |s|
    ensures i <= n <= |s| && forall k | i <= k < n :: IsNumberUnit(s[k])
    ensures n < |s| ==> !IsNumberUnit(s[n])
    decreases |s| - i
  {
    if i == |s| || !IsNumberUnit(s[i]) then i else NumberEnd(s, i + 1)
  }

  type Reading<+T> = Option<(T, Text)>

  function ReadNumber(s: Text, f: NumberFormat): (r: Reading<Json>)
    ensures r.Some? ==> |r.value.1| < |s|
  {
    var n := NumberEnd(s, 0);
    if n == 0 then None
    else
      var number := f.read(s[..n]);
      if number.None? then None else Some((Num(Finite(number.value)), s[n..]))
  }

  function ReadValue(s: Text, f: NumberFormat): (r: Reading<Json>)
    ensures r.Some? ==> |r.value.1| < |s|
    decreases |s|, 0
  {
    if s == [] then None
    else if s[0] == QUOTE then
      var text := ReadString(s[1..]);
      if text.None? then None else Some((Str(text.value.0), text.value.1))
    else if s[0] == OPEN_BRACKET then
      if |s| > 1 && s[1] == CLOSE_BRACKET then Some((Arr([]), s[2..]))
      else
        var items := ReadItems(s[1..], f);
        if items.None? then None else Some((Arr(items.value.0), items.value.1))
    else if s[0] == OPEN_BRACE then
      if |s| > 1 && s[1] == CLOSE_BRACE then Some((Obj([]), s[2..]))
      else
        var members := ReadMembers(s[1..], f);
        if members.None? then None else Some((Obj(members.value.0), members.value.1))
    else if IsNumberUnit(s[0]) then ReadNumber(s, f)
    else if NULL <= s then Some((Null, s[4..]))
    else if TRUE <= s then Some((Bool(true), s[4..]))
    else if FALSE <= s then Some((Bool(false), s[5..]))
    else None
  }

  function ReadItems(s: Text, f: NumberFormat): (r: Reading<seq<Json>>)
    ensures r.Some? ==> |r.value.1| < |s|
    decreases |s|, 1
  {
    var item := ReadValue(s, f);
    if item.None? || item.value.1 == [] then None
    else
      var rest := item.value.1;
      if rest[0] == CLOSE_BRACKET then Some(([item.value.0], rest[1..]))
      else if rest[0] != COMMA then None
      else
        var more := ReadItems(rest[1..], f);
        if more.None? then None else Some(([item.value.0] + more.value.0, more.value.1))
  }

  function ReadMember(s: Text, f: NumberFormat): (r: Reading<Field<Json>>)
    ensures r.Some? ==> |r.value.1| < |s|
    decreases |s|, 1
  {
    if s == [] || s[0] != QUOTE then None
    else
      var name := ReadString(s[1..]);
      if name.None? || name.value.1 == [] || name.value.1[0] != COLON then None
      else
        var value := ReadValue(name.value.1[1..], f);
        if value.None? then None else Some((Field(name.value.0, value.value.0), value.value.1))
  }

  function ReadMembers(s: Text, f: NumberFormat): (r: Reading<seq<Field<Json>>>)
    ensures r.Some? ==> |r.value.1| < |s|
    decreases |s|, 2
  {
    var member := ReadMember(s, f);
    if member.None? || member.value.1 == [] then None
    else
      var rest := member.value.1;
      if rest[0] == CLOSE_BRACE then Some(([member.value.0], rest[1..]))
      else if rest[0] != COMMA then None
      else
        var more := ReadMembers(rest[1..], f);
        if more.None? then None else Some(([member.value.0] + more.value.0, more.value.1))
  }

  // ------------------------------------------------------------------- round trip

  /** What follows cannot be taken for more digits. */
  predicate Ends(rest: Text) {
    rest != [] ==> !IsNumberUnit(rest[0])
  }

  lemma NumberRoundTrip(r: real, rest: Text, f: NumberFormat)
    requires IsNumberFormat(f) && f.isNumber(r) && Ends(rest)
    ensures ReadValue(f.print_(r) + rest, f) == Some((Num(Finite(r)), rest))
  {
    var text := f.print_(r);
    var s := text + rest;
    assert forall k | 0 <= k < |text| :: s[k] == text[k] && text[k] in text;
    assert rest != [] ==> s[|text|] == rest[0];
    var n := NumberEnd(s, 0);
    assert n == |text|;
    assert s[..n] == text && s[n..] == rest;
    assert s[0] == text[0] && IsNumberUnit(s[0]);
  }

  lemma LiteralRoundTrip(v: Json, rest: Text, f: NumberFormat)
    requires v.Null? || v.Bool?
    ensures ReadValue(ScalarText(v, f) + rest, f) == Some((v, rest))
  {
    var text := ScalarText(v, f);
    var s := text + rest;
    assert s[..|text|] == text && s[|text|..] == rest;
    assert s[0] == text[0];
    assert TRUE[0] != NULL[0] && FALSE[0] != NULL[0] && FALSE[0] != TRUE[0];
  }

  lemma TextRoundTrip(text: Text, rest: Text, f: NumberFormat)
    ensures ReadValue(Quoted(text) + rest, f) == Some((Str(text), rest))
  {
    QuotedForm(text, rest);
    StringRoundTrip(text, rest);
    assert ([QUOTE] + (Escaped(text) + ([QUOTE] + rest)))[1..] == Escaped(text) + ([QUOTE] + rest);
  }

  lemma QuotedForm(text: Text, rest: Text)
    ensures Quoted(text) + rest == [QUOTE] + (Escaped(text) + ([QUOTE] + rest))
  {
    Regroup([QUOTE] + Escaped(text), [QUOTE], rest);
    Regroup([QUOTE], Escaped(text), [QUOTE] + rest);
  }

  lemma ScalarRoundTrip(v: Json, rest: Text, f: NumberFormat)
    requires IsNumberFormat(f) && IsPrintable(v, f) && Ends(rest) && !v.Arr? && !v.Obj?
    ensures ReadValue(ScalarText(v, f) + rest, f) == Some((v, rest))
  {
    match v {
      case Num(n) => NumberRoundTrip(n.value, rest, f);
      case Str(text) => TextRoundTrip(text, rest, f);
      case _ => LiteralRoundTrip(v, rest, f);
    }
  }

  /** No value starts like the end of a list. */
  lemma FirstUnit(v: Json, f: NumberFormat)
    requires IsNumberFormat(f) && IsPrintable(v, f)
    ensures PlainText(v, f) != [] && PlainText(v, f)[0] != CLOSE_BRACKET
  {
    if v.Num? {
      assert f.print_(v.number.value)[0] in f.print_(v.number.value);
    }
  }

  lemma BracketedForm(open: CodeUnit, inside: Text, close: CodeUnit, rest: Text)
    ensures Bracketed(open, inside, close) + rest == [open] + (inside + ([close] + rest))
  {
    Regroup([open], inside + [close], rest);
    Regroup(inside, [close], rest);
  }

  lemma JoinForm(texts: seq<Text>, rest: Text)
    requires |texts| > 1
    ensures Join(texts) + rest == texts[0] + ([COMMA] + (Join(texts[1..]) + rest))
  {
    Regroup(texts[0], [COMMA] + Join(texts[1..]), rest);
    Regroup([COMMA], Join(texts[1..]), rest);
  }

  lemma ReadsArray(inside: Text, items: seq<Json>, rest: Text, f: NumberFormat)
    requires ReadItems(inside, f) == Some((items, rest)) && inside != [] && inside[0] != CLOSE_BRACKET
    ensures ReadValue([OPEN_BRACKET] + inside, f) == Some((Arr(items), rest))
  {
    assert ([OPEN_BRACKET] + inside)[1..] == inside;
  }

  lemma ReadsObject(inside: Text, members: seq<Field<Json>>, rest: Text, f: NumberFormat)
    requires ReadMembers(inside, f) == Some((members, rest)) && inside != [] && inside[0] == QUOTE
    ensures ReadValue([OPEN_BRACE] + inside, f) == Some((Obj(members), rest))
  {
    assert ([OPEN_BRACE] + inside)[1..] == inside;
  }

  lemma ReadsEmpty(rest: Text, f: NumberFormat)
    ensures ReadValue([OPEN_BRACKET] + ([CLOSE_BRACKET] + rest), f) == Some((Arr([]), rest))
    ensures ReadValue([OPEN_BRACE] + ([CLOSE_BRACE] + rest), f) == Some((Obj([]), rest))
  {
    assert ([OPEN_BRACKET] + ([CLOSE_BRACKET] + rest))[2..] == rest;
    assert ([OPEN_BRACE] + ([CLOSE_BRACE] + rest))[2..] == rest;
  }

  lemma ReadsItem(s: Text, item: Json, end: Text, tail: Text, items: seq<Json>, rest: Text, f: NumberFormat)
    requires ReadValue(s, f) == Some((item, end))
    requires if items == [] then end == [CLOSE_BRACKET] + rest else end == [COMMA] + tail && ReadItems(tail, f) == Some((items, rest))
    ensures ReadItems(s, f) == Some(([item] + items, rest))
  {
    assert end[1..] == if items == [] then rest else tail;
    assert items == [] ==> [item] + items == [item];
  }

  lemma ReadsMember(s: Text, name: Text, value: Json, end: Text, f: NumberFormat)
    requires ReadValue(s, f) == Some((value, end))
    ensures ReadMember(Quoted(name) + ([COLON] + s), f) == Some((Field(name, value), end))
  {
    QuotedForm(name, [COLON] + s);
    StringRoundTrip(name, [COLON] + s);
    var text := Quoted(name) + ([COLON] + s);
    assert text[1..] == Escaped(name) + ([QUOTE] + ([COLON] + s));
    assert ([COLON] + s)[1..] == s;
  }

  lemma ReadsMemberList(s: Text, member: Field<Json>, end: Text, tail: Text, members: seq<Field<Json>>, rest: Text, f: NumberFormat)
    requires ReadMember(s, f) == Some((member, end))
    requires if members == [] then end == [CLOSE_BRACE] + rest else end == [COMMA] + tail && ReadMembers(tail, f) == Some((members, rest))
    ensures ReadMembers(s, f) == Some(([member] + members, rest))
  {
    assert end[1..] == if members == [] then rest else tail;
    assert members == [] ==> [member] + members == [member];
  }

  /** Whatever was printed reads back, with what follows it left over. */
  lemma {:induction false} ValueRoundTrip(v: Json, rest: Text, f: NumberFormat)
    requires IsNumberFormat(f) && IsPrintable(v, f) && Ends(rest)
    ensures ReadValue(PlainText(v, f) + rest, f) == Some((v, rest))
    decreases v, 0
  {
    match v {
      case Arr(items) =>
        BracketedForm(OPEN_BRACKET, Join(PlainItems(items, f)), CLOSE_BRACKET, rest);
        if items == [] {
          ReadsEmpty(rest, f);
          assert Join([]) + ([CLOSE_BRACKET] + rest) == [CLOSE_BRACKET] + rest;
        } else {
          ItemsRoundTrip(items, rest, f);
          ReadsArray(Join(PlainItems(items, f)) + ([CLOSE_BRACKET] + rest), items, rest, f);
        }
      case Obj(members) =>
        BracketedForm(OPEN_BRACE, Join(FieldTexts(PlainMembers(members, f))), CLOSE_BRACE, rest);
        if members == [] {
          ReadsEmpty(rest, f);
          assert Join(FieldTexts([])) + ([CLOSE_BRACE] + rest) == [CLOSE_BRACE] + rest;
        } else {
          MembersRoundTrip(members, rest, f);
          ReadsObject(Join(FieldTexts(PlainMembers(members, f))) + ([CLOSE_BRACE] + rest), members, rest, f);
        }
      case _ => ScalarRoundTrip(v, rest, f);
    }
  }

  lemma {:induction false} ItemsRoundTrip(items: seq<Json>, rest: Text, f: NumberFormat)
    requires IsNumberFormat(f) && items != [] && forall i | 0 <= i < |items| :: IsPrintable(items[i], f)
    ensures var s := Join(PlainItems(items, f)) + ([CLOSE_BRACKET] + rest);
            ReadItems(s, f) == Some((items, rest)) && s != [] && s[0] != CLOSE_BRACKET
    decreases items, 1
  {
    var texts := PlainItems(items, f);
    FirstUnit(items[0], f);
    if |items| == 1 {
      ValueRoundTrip(items[0], [CLOSE_BRACKET] + rest, f);
      ReadsItem(texts[0] + ([CLOSE_BRACKET] + rest), items[0], [CLOSE_BRACKET] + rest, [], [], rest, f);
      assert [items[0]] + [] == items;
    } else {
      var tail := Join(texts[1..]) + ([CLOSE_BRACKET] + rest);
      assert texts[1..] == PlainItems(items[1..], f);
      ItemsRoundTrip(items[1..], rest, f);
      JoinForm(texts, [CLOSE_BRACKET] + rest);
      ValueRoundTrip(items[0], [COMMA] + tail, f);
      ReadsItem(texts[0] + ([COMMA] + tail), items[0], [COMMA] + tail, tail, items[1..], rest, f);
      assert [items[0]] + items[1..] == items;
    }
  }

  lemma FieldForm(name: Text, value: Text, rest: Text)
    ensures FieldText(Field(name, value)) + rest == Quoted(name) + ([COLON] + (value + rest))
    ensures FieldText(Field(name, value)) != [] && FieldText(Field(name, value))[0] == QUOTE
  {
    Regroup(Quoted(name), [COLON] + value, rest);
    Regroup([COLON], value, rest);
    Regroup([QUOTE], Escaped(name), [QUOTE]);
  }

  lemma {:induction false} MembersRoundTrip(members: seq<Field<Json>>, rest: Text, f: NumberFormat)
    requires IsNumberFormat(f) && members != [] && forall i | 0 <= i < |members| :: IsPrintable(members[i].value, f)
    ensures var s := Join(FieldTexts(PlainMembers(members, f))) + ([CLOSE_BRACE] + rest);
            ReadMembers(s, f) == Some((members, rest)) && s != [] && s[0] == QUOTE
    decreases members, 1
  {
    var fields := PlainMembers(members, f);
    var texts := FieldTexts(fields);
    var first := members[0];
    var value := PlainText(first.value, f);
    if |members| == 1 {
      var end := [CLOSE_BRACE] + rest;
      FieldForm(first.name, value, end);
      ValueRoundTrip(first.value, end, f);
      ReadsMember(value + end, first.name, first.value, end, f);
      ReadsMemberList(texts[0] + end, first, end, [], [], rest, f);
      assert [first] + [] == members;
    } else {
      var tail := Join(texts[1..]) + ([CLOSE_BRACE] + rest);
      var end := [COMMA] + tail;
      assert texts[1..] == FieldTexts(PlainMembers(members[1..], f));
      MembersRoundTrip(members[1..], rest, f);
      JoinForm(texts, [CLOSE_BRACE] + rest);
      FieldForm(first.name, value, end);
      ValueRoundTrip(first.value, end, f);
      ReadsMember(value + end, first.name, first.value, end, f);
      ReadsMemberList(texts[0] + end, first, end, tail, members[1..], rest, f);
      assert [first] + members[1..] == members;
    }
  }
}
